/** Whitespace pruning of menu-choice and option text: an in-place erase loop that
    runs backwards over a growing-shorter string, proved to compute the word normal form. */
module Whitespace {

  /** The four characters the converter and the builder treat as white space. */
  predicate IsBlank(c: char) {
    c == ' ' || c == '\r' || c == '\n' || c == '\t'
  }

  predicate AllBlank(s: string) {
    forall i :: 0 <= i < |s| ==> IsBlank(s[i])
  }

  /** The maximal runs of non-blank characters, in order. */
  function Words(s: string): (ws: seq<string>)
    ensures s != [] && !IsBlank(s[0]) ==> ws != []
  {
    if s == [] then []
    else
      var rest := Words(s[1..]);
      if IsBlank(s[0]) then rest
      else if |s| == 1 || IsBlank(s[1]) then [[s[0]]] + rest
      else [[s[0]] + rest[0]] + rest[1..]
  }

  function Join(ws: seq<string>): string {
    if ws == [] then ""
    else if |ws| == 1 then ws[0]
    else ws[0] + " " + Join(ws[1..])
  }

  /** The words of s separated by single spaces. */
  function Normal(s: string): string {
    Join(Words(s))
  }

  function NonBlank(s: string): string {
    if s == [] then ""
    else if IsBlank(s[0]) then NonBlank(s[1..])
    else [s[0]] + NonBlank(s[1..])
  }

  /** Normal form, stated without words: no blank at either end, no two blanks in a row, and
      every blank a plain space. */
  predicate IsNormal(s: string) {
    && (s != [] ==> !IsBlank(s[0]) && !IsBlank(s[|s| - 1]))
    && (forall i :: 0 <= i < |s| && IsBlank(s[i]) ==> s[i] == ' ')
    && (forall i :: 0 <= i < |s| - 1 && IsBlank(s[i]) ==> !IsBlank(s[i + 1]))
  }

  // What the backward loop has made of the suffix it has passed.
  function Squeeze(s: string): string {
    if s == [] then ""
    else
      var rest := Squeeze(s[1..]);
      if s[0] != ' ' then [s[0]] + rest
      else if rest == "" || rest[0] == ' ' then rest
      else " " + rest
  }

  function Spaced(s: string): (r: string)
    ensures |r| == |s|
    ensures forall i :: 0 <= i < |s| ==> r[i] == if IsBlank(s[i]) then ' ' else s[i]
  {
    seq(|s|, i requires 0 <= i < |s| => if IsBlank(s[i]) then ' ' else s[i])
  }

  lemma SpacedTail(s: string)
    requires s != []
    ensures Spaced(s)[1..] == Spaced(s[1..])
  {
  }

  lemma {:induction false} WordsNonEmpty(s: string)
    ensures forall i :: 0 <= i < |Words(s)| ==> Words(s)[i] != ""
  {
    if s != [] {
      WordsNonEmpty(s[1..]);
    }
  }

  lemma {:induction false} JoinHead(w: string, c: char, ws: seq<string>)
    ensures Join([[c] + w] + ws) == [c] + Join([w] + ws)
  {
    if ws != [] {
      assert ([[c] + w] + ws)[1..] == ws && ([w] + ws)[1..] == ws;
    }
  }

  // What the first character does to the normal form of the rest.
  lemma NormalFirst(s: string)
    requires s != ""
    ensures var t := s[1..];
            if IsBlank(s[0]) then Words(s) == Words(t) && Normal(s) == Normal(t)
            else
              && Words(s) != []
              && Normal(s) == [s[0]] + if |s| > 1 && !IsBlank(s[1]) then Normal(t) else if Words(t) == [] then "" else " " + Normal(t)
  {
    hide Join;
    if IsBlank(s[0]) {
      BlankFirst(s);
    } else {
      var ws := Words(s[1..]);
      WordsFirst(s);
      if |s| > 1 && !IsBlank(s[1]) {
        assert ws == [ws[0]] + ws[1..];
        JoinHead(ws[0], s[0], ws[1..]);
      } else {
        JoinFirst([s[0]], ws);
      }
    }
  }

  lemma JoinFirst(w: string, ws: seq<string>)
    ensures Join([w] + ws) == w + if ws == [] then "" else " " + Join(ws)
  {
    assert ([w] + ws)[1..] == ws;
  }

  // The suffix form is the normal form, with one space in front when blanks came first.
  lemma {:induction false} SqueezeIsNormal(s: string)
    ensures Squeeze(Spaced(s)) ==
            (if s != [] && IsBlank(s[0]) && Words(s) != [] then " " else "") + Normal(s)
    ensures Normal(s) != "" <==> Words(s) != []
    ensures Normal(s) != "" ==> Normal(s)[0] != ' ' && !IsBlank(Normal(s)[0])
  {
    hide Words, Normal, Spaced;
    if s == [] {
      NormalOfNothing();
    } else {
      SqueezeIsNormal(s[1..]);
      SpacedTail(s);
      NormalFirst(s);
    }
  }

  lemma NormalOfNothing()
    ensures Words("") == [] && Normal("") == "" && Spaced("") == ""
  {
  }

  lemma {:induction false} WordsOfSpaced(s: string)
    ensures Words(Spaced(s)) == Words(s)
  {
    if s != [] {
      SpacedTail(s);
      WordsOfSpaced(s[1..]);
    }
  }

  lemma SpacedStep(s: string, str: string, i: nat)
    requires i < |s| && str == Spaced(s)[..i] + s[i..]
    ensures |str| == |s| && str[i] == s[i]
    ensures str[i := Spaced(s)[i]] == Spaced(s)[..i + 1] + s[i + 1..]
  {
  }

  lemma SqueezeStep(t: string, str: string, i: nat)
    requires 0 < i <= |t| && str == t[..i] + Squeeze(t[i..])
    ensures |str| >= i && str[i - 1] == t[i - 1]
    ensures str == t[..i - 1] + ([t[i - 1]] + Squeeze(t[i..]))
    ensures str[..i - 1] + str[i..] == t[..i - 1] + Squeeze(t[i..])
    ensures t[i - 1..][0] == t[i - 1] && t[i - 1..][1..] == t[i..]
  {
  }

  /** The pruning loop of one content node: blanks become spaces, then a backward scan erases
      trailing and doubled spaces in place, then a leading space is erased. */
  method PruneText(data: string) returns (str: string)
    ensures str == Normal(data)
  {
    str := data;
    var len := |str|;
    if len == 0 { return; }

    // Every blank character is a space from here on.
    var i := 0;
    while i < len
      invariant 0 <= i <= len == |data|
      invariant str == Spaced(data)[..i] + data[i..]
    {
      SpacedStep(data, str, i);
      if str[i] == '\r' || str[i] == '\n' || str[i] == '\t' {
        str := str[i := ' '];
      }
      i := i + 1;
    }
    assert str == Spaced(data);

    str := EraseBackwards(str);

    // The scan keeps one space in front of the first word.
    SqueezeIsNormal(data);
    if str != "" && str[0] == ' ' {
      str := str[1..];
    }
  }

  // The scan from the back: a space is kept only in front of a kept non-space.
  method EraseBackwards(t: string) returns (str: string)
    ensures str == Squeeze(t)
  {
    str := t;
    var lastWasSpace := true;
    var i := |t|;
    while i > 0
      invariant 0 <= i <= |t|
      invariant str == t[..i] + Squeeze(t[i..])
      invariant lastWasSpace <==> Squeeze(t[i..]) == "" || Squeeze(t[i..])[0] == ' '
    {
      SqueezeStep(t, str, i);
      if str[i - 1] != ' ' {
        lastWasSpace := false;
      } else if lastWasSpace {
        str := str[..i - 1] + str[i..];
      } else {
        lastWasSpace := true;
      }
      i := i - 1;
    }
    assert t[0..] == t;
  }

  lemma {:induction false} JoinKeepsNonBlank(ws: seq<string>)
    ensures NonBlank(Join(ws)) == NonBlankAll(ws)
  {
    if |ws| > 1 {
      NonBlankAppend(ws[0] + " ", Join(ws[1..]));
      NonBlankAppend(ws[0], " ");
      assert NonBlank(" ") == "";
      JoinKeepsNonBlank(ws[1..]);
    }
  }

  function NonBlankAll(ws: seq<string>): string {
    if ws == [] then "" else NonBlank(ws[0]) + NonBlankAll(ws[1..])
  }

  lemma {:induction false} NonBlankAppend(a: string, b: string)
    ensures NonBlank(a + b) == NonBlank(a) + NonBlank(b)
  {
    if a == "" {
      assert a + b == b;
    } else {
      assert (a + b)[1..] == a[1..] + b;
      NonBlankAppend(a[1..], b);
    }
  }

  lemma NonBlankFirst(c: char, s: string)
    ensures NonBlank([c] + s) == (if IsBlank(c) then "" else [c]) + NonBlank(s)
  {
    assert ([c] + s)[1..] == s;
  }

  lemma NonBlankAllFirst(w: string, ws: seq<string>)
    ensures NonBlankAll([w] + ws) == NonBlank(w) + NonBlankAll(ws)
  {
    assert ([w] + ws)[1..] == ws;
  }

  // What the first character does to the words after it.
  lemma WordsFirst(s: string)
    requires s != "" && !IsBlank(s[0])
    ensures var rest := Words(s[1..]);
            if |s| == 1 || IsBlank(s[1]) then Words(s) == [[s[0]]] + rest
            else rest != [] && Words(s) == [[s[0]] + rest[0]] + rest[1..]
  {
  }

  lemma {:induction false} WordsKeepNonBlank(s: string)
    ensures NonBlankAll(Words(s)) == NonBlank(s)
  {
    hide Words, NonBlank, NonBlankAll;
    if s == "" {
      NoWords();
    } else {
      var c, rest := s[0], Words(s[1..]);
      WordsKeepNonBlank(s[1..]);
      assert s == [c] + s[1..];
      NonBlankFirst(c, s[1..]);
      if IsBlank(c) {
        BlankFirst(s);
      } else {
        WordsFirst(s);
        if |s| == 1 || IsBlank(s[1]) {
          NonBlankAllFirst([c], rest);
          NonBlankFirst(c, "");
          assert [c] + "" == [c];
          NoWords();
        } else {
          NonBlankAllFirst([c] + rest[0], rest[1..]);
          NonBlankFirst(c, rest[0]);
          NonBlankAllFirst(rest[0], rest[1..]);
          assert rest == [rest[0]] + rest[1..];
        }
      }
    }
  }

  lemma NoWords()
    ensures Words("") == [] && NonBlankAll([]) == "" && NonBlank("") == ""
  {
  }

  lemma BlankFirst(s: string)
    requires s != "" && IsBlank(s[0])
    ensures Words(s) == Words(s[1..])
  {
  }

  /** Pruning loses and reorders no visible character. */
  lemma PruneKeepsText(s: string)
    ensures NonBlank(Normal(s)) == NonBlank(s)
  {
    WordsKeepNonBlank(s);
    JoinKeepsNonBlank(Words(s));
  }

  // A normal string is squeezed and spaced already.
  lemma {:induction false} SqueezeFixesNormalTail(s: string)
    requires s != [] ==> !IsBlank(s[|s| - 1])
    requires forall i :: 0 <= i < |s| && IsBlank(s[i]) ==> s[i] == ' '
    requires forall i :: 0 <= i < |s| - 1 && IsBlank(s[i]) ==> !IsBlank(s[i + 1])
    ensures Squeeze(s) == s
  {
    if s != [] {
      var t := s[1..];
      assert forall i :: 0 <= i < |t| ==> t[i] == s[i + 1];
      SqueezeFixesNormalTail(t);
      assert s == [s[0]] + t;
    }
  }

  lemma {:induction false} JoinWordsIsNormal(s: string)
    ensures IsNormal(Normal(s))
  {
    hide Words, Normal, IsNormal;
    if s == [] {
      assert IsNormal("") by { NothingIsNormal(); }
      NormalOfNothing();
    } else {
      var t := s[1..];
      JoinWordsIsNormal(t);
      SqueezeIsNormal(t);
      NormalFirst(s);
      ConsIsNormal(s[0], Normal(t));
    }
  }

  lemma NothingIsNormal()
    ensures IsNormal("")
  {
  }

  lemma ConsIsNormal(c: char, x: string)
    requires IsNormal(x)
    ensures !IsBlank(c) ==> IsNormal([c] + x) && IsNormal([c] + "") && (x != "" ==> IsNormal([c] + (" " + x)))
  {
    var y := [c] + (" " + x);
    assert forall i :: 2 <= i < |y| ==> y[i] == x[i - 2];
    assert forall i :: 1 <= i < |x| + 1 ==> ([c] + x)[i] == x[i - 1];
  }

  /** The result of pruning is in normal form, and it is the only normal string with the words
      of s; so pruning again changes nothing. */
  lemma PruneIsTheNormalForm(s: string, x: string)
    ensures IsNormal(Normal(s))
    ensures IsNormal(x) && Words(x) == Words(s) <==> x == Normal(s)
    ensures Normal(Normal(s)) == Normal(s)
  {
    JoinWordsIsNormal(s);
    NormalFixed(Normal(s));
    WordsOfNormal(s);
    if IsNormal(x) {
      NormalFixed(x);
    }
  }

  lemma NormalFixed(x: string)
    requires IsNormal(x)
    ensures Normal(x) == x
  {
    SqueezeFixesNormalTail(x);
    assert Spaced(x) == x;
    SqueezeIsNormal(x);
  }

  lemma {:induction false} WordsOfNormal(s: string)
    ensures Words(Normal(s)) == Words(s)
  {
    SqueezeIsNormal(s);
    WordsOfSqueeze(Spaced(s));
    WordsOfSpaced(s);
    if s != [] && IsBlank(s[0]) && Words(s) != [] {
      assert (" " + Normal(s))[1..] == Normal(s);
      assert Words(" " + Normal(s)) == Words(Normal(s));
    } else {
      assert "" + Normal(s) == Normal(s);
    }
  }

  lemma {:induction false} WordsOfSqueeze(s: string)
    requires forall i :: 0 <= i < |s| && IsBlank(s[i]) ==> s[i] == ' '
    ensures Words(Squeeze(s)) == Words(s)
    ensures s != [] && !IsBlank(s[0]) ==> Squeeze(s) != "" && Squeeze(s)[0] == s[0]
    ensures Squeeze(s) != "" && !IsBlank(Squeeze(s)[0]) ==> s != [] && !IsBlank(s[0])
  {
    if s != [] {
      WordsOfSqueeze(s[1..]);
      var rest := Squeeze(s[1..]);
      if s[0] != ' ' {
        assert ([s[0]] + rest)[1..] == rest;
      } else if rest != "" && rest[0] != ' ' {
        assert (" " + rest)[1..] == rest;
      }
    }
  }

  /** Text with at least one visible character never prunes to nothing. */
  lemma PruneKeepsVisible(s: string)
    ensures Normal(s) == "" <==> AllBlank(s)
  {
    PruneKeepsText(s);
    SqueezeIsNormal(s);
    NonBlankEmpty(s);
    NonBlankEmpty(Normal(s));
  }

  lemma {:induction false} NonBlankEmpty(s: string)
    ensures NonBlank(s) == "" <==> AllBlank(s)
  {
    if s != [] {
      NonBlankEmpty(s[1..]);
      assert AllBlank(s) ==> AllBlank(s[1..]);
      assert IsBlank(s[0]) && AllBlank(s[1..]) ==> AllBlank(s) by {
        if IsBlank(s[0]) && AllBlank(s[1..]) {
          forall i | 0 <= i < |s| ensures IsBlank(s[i]) {
            if i > 0 { assert s[i] == s[1..][i - 1]; }
          }
        }
      }
    }
  }
}
