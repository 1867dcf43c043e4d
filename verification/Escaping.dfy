/** Entity escaping of SSML text: replace loops over a string that grows at every step. */
module Escaping {
  import opened Wrappers

  const TEXT_SPECIALS: set<char> := {'<', '&'}
  const ATTRIBUTE_SPECIALS: set<char> := {'"', '<', '&'}
  const COPY_SPECIALS: set<char> := {'<', '>', '&'}

  function Entity(c: char): string {
    match c
    case '"' => "&quot;"
    case '<' => "&lt;"
    case '>' => "&gt;"
    case '&' => "&amp;"
    case _ => [c]
  }

  /** Pointwise escaping of the characters in `specials`. */
  function Escape(s: string, specials: set<char>): string {
    if s == "" then ""
    else (if s[0] in specials then Entity(s[0]) else [s[0]]) + Escape(s[1..], specials)
  }

  /** Reads the four predefined entities back; every other character stands for itself. */
  function Unescape(s: string): string {
    if s == "" then ""
    else if "&quot;" <= s then "\"" + Unescape(s[6..])
    else if "&lt;" <= s then "<" + Unescape(s[4..])
    else if "&gt;" <= s then ">" + Unescape(s[4..])
    else if "&amp;" <= s then "&" + Unescape(s[5..])
    else [s[0]] + Unescape(s[1..])
  }

  predicate Free(s: string, specials: set<char>) {
    forall i :: 0 <= i < |s| ==> s[i] !in specials
  }

  lemma {:induction false} EscapeAppend(a: string, b: string, specials: set<char>)
    ensures Escape(a + b, specials) == Escape(a, specials) + Escape(b, specials)
  {
    if a == "" {
      assert a + b == b;
    } else {
      assert (a + b)[1..] == a[1..] + b;
      EscapeAppend(a[1..], b, specials);
    }
  }

  lemma {:induction false} EscapeFree(s: string, specials: set<char>)
    requires Free(s, specials)
    ensures Escape(s, specials) == s
  {
    if s != "" {
      EscapeFree(s[1..], specials);
    }
  }

  lemma UnescapeEntity(c: char, rest: string)
    requires c in {'"', '<', '>', '&'}
    ensures Unescape(Entity(c) + rest) == [c] + Unescape(rest)
  {
    var s := Entity(c) + rest;
    assert s[|Entity(c)|..] == rest;
    assert s[1] == Entity(c)[1];
    assert c == '"' ==> "&quot;" <= s;
    assert c == '<' ==> "&lt;" <= s && s[1] == 'l';
    assert c == '>' ==> "&gt;" <= s && s[1] == 'g';
    assert c == '&' ==> "&amp;" <= s && s[1] == 'a';
  }

  /** Every escaping set the program uses holds `&`, so unescaping is a left inverse on all texts. */
  lemma {:induction false} UnescapeEscape(s: string, specials: set<char>)
    requires '&' in specials && specials <= {'"', '<', '>', '&'}
    ensures Unescape(Escape(s, specials)) == s
  {
    if s != "" {
      var rest := Escape(s[1..], specials);
      UnescapeEscape(s[1..], specials);
      if s[0] in specials {
        UnescapeEntity(s[0], rest);
      } else {
        assert ([s[0]] + rest)[0] != '&';
        assert ([s[0]] + rest)[1..] == rest;
      }
    }
  }

  /** Escaped text holds no escaped character other than the ampersands of its entities. */
  lemma {:induction false} EscapeLeavesOnlyAmpersands(s: string, specials: set<char>)
    requires specials <= {'"', '<', '>', '&'}
    ensures Free(Escape(s, specials), specials - {'&'})
  {
    if s != "" {
      EscapeLeavesOnlyAmpersands(s[1..], specials);
    }
  }

  lemma {:induction false} EscapeGrows(s: string, specials: set<char>)
    requires specials <= {'"', '<', '>', '&'}
    ensures |Escape(s, specials)| >= |s| && (|Escape(s, specials)| == |s| ==> Free(s, specials))
  {
    if s != "" { EscapeGrows(s[1..], specials); }
  }

  lemma EscapeKeeps(s: string, specials: set<char>)
    requires specials <= {'"', '<', '>', '&'}
    ensures Escape(s, specials) == s <==> Free(s, specials)
  {
    EscapeGrows(s, specials);
    if Free(s, specials) { EscapeFree(s, specials); }
  }

  /** Text that has been added holds no `<`, and is as it was exactly when it had no `<` and no `&`. */
  lemma AddedText(s: string)
    ensures '<' !in Escape(s, TEXT_SPECIALS)
    ensures Escape(s, TEXT_SPECIALS) == s <==> '<' !in s && '&' !in s
  {
    EscapeLeavesOnlyAmpersands(s, TEXT_SPECIALS);
    EscapeKeeps(s, TEXT_SPECIALS);
  }

  /** An attribute value holds no double quote either, so the quote after it ends it. */
  lemma AddedValue(s: string)
    ensures '"' !in Escape(s, ATTRIBUTE_SPECIALS) && '<' !in Escape(s, ATTRIBUTE_SPECIALS)
    ensures Escape(s, ATTRIBUTE_SPECIALS) == s <==> '"' !in s && '<' !in s && '&' !in s
  {
    EscapeLeavesOnlyAmpersands(s, ATTRIBUTE_SPECIALS);
    EscapeKeeps(s, ATTRIBUTE_SPECIALS);
  }

  /** In copied markup a value holds no `<` and no `>`, and keeps its double quotes. */
  lemma CopiedValue(s: string)
    ensures '<' !in Escape(s, COPY_SPECIALS) && '>' !in Escape(s, COPY_SPECIALS)
    ensures '"' in Escape(s, COPY_SPECIALS) <==> '"' in s
    ensures Escape(s, COPY_SPECIALS) == s <==> '<' !in s && '>' !in s && '&' !in s
  {
    hide Escape;
    EscapeLeavesOnlyAmpersands(s, COPY_SPECIALS);
    EscapeKeeps(s, COPY_SPECIALS);
    KeepsQuotes(s, COPY_SPECIALS);
  }

  lemma {:induction false} KeepsQuotes(s: string, specials: set<char>)
    requires '"' !in specials
    ensures '"' in Escape(s, specials) <==> '"' in s
  {
    if s != "" {
      var rest := s[1..];
      KeepsQuotes(rest, specials);
      assert '"' in s <==> s[0] == '"' || '"' in rest by { assert s == [s[0]] + rest; }
      assert '"' !in Entity(s[0]) || s[0] == '"';
    }
  }

  /** std::string::find_first_of: the first position at or after `pos` holding one of `specials`. */
  method FindFirstOf(s: string, specials: set<char>, pos: nat) returns (found: bool, at: nat)
    requires pos <= |s|
    ensures found ==> pos <= at < |s| && s[at] in specials && Free(s[pos..at], specials)
    ensures !found ==> Free(s[pos..], specials)
  {
    at := pos;
    while at < |s|
      invariant pos <= at <= |s|
      invariant forall i :: pos <= i < at ==> s[i] !in specials
    {
      if s[at] in specials { return true, at; }
      at := at + 1;
    }
    found := false;
  }

  // The termination measure of the replace loops: special characters not yet passed.
  ghost function Ahead(s: string, specials: set<char>): nat {
    if s == "" then 0 else (if s[0] in specials then 1 else 0) + Ahead(s[1..], specials)
  }

  lemma {:induction false} SkipFree(a: string, b: string, specials: set<char>)
    requires Free(a, specials)
    ensures Escape(a + b, specials) == a + Escape(b, specials)
    ensures Ahead(a + b, specials) == Ahead(b, specials)
  {
    if a == "" {
      assert a + b == b;
    } else {
      assert (a + b)[1..] == a[1..] + b;
      SkipFree(a[1..], b, specials);
    }
  }

  lemma EntityFacts(c: char, rest: string, specials: set<char>)
    requires specials <= {'"', '<', '>', '&'} && c in specials
    ensures |Entity(c)| > 1 && Free(Entity(c)[1..], specials)
    ensures Escape([c] + rest, specials) == Entity(c) + Escape(rest, specials)
    ensures Ahead([c] + rest, specials) == 1 + Ahead(rest, specials)
  {
    assert ([c] + rest)[1..] == rest;
  }

  // One replacement: the text before the cursor plus the escape of the text after it is unchanged.
  lemma ReplaceStep(s: string, specials: set<char>, pos: nat, at: nat)
    requires specials <= {'"', '<', '>', '&'}
    requires pos <= at < |s| && s[at] in specials && Free(s[pos..at], specials)
    ensures var t := s[..at] + Entity(s[at]) + s[at + 1..];
            && at + 1 <= |t|
            && t[..at + 1] + Escape(t[at + 1..], specials) == s[..pos] + Escape(s[pos..], specials)
            && Ahead(t[at + 1..], specials) < Ahead(s[pos..], specials)
  {
    hide Entity, Escape, Ahead, Free;
    var e := Entity(s[at]);
    var rest := s[at + 1..];
    var t := s[..at] + e + rest;
    EntityFacts(s[at], rest, specials);
    assert s[pos..] == s[pos..at] + ([s[at]] + rest);
    SkipFree(s[pos..at], [s[at]] + rest, specials);
    assert t[..at + 1] == s[..at] + e[..1];
    assert t[at + 1..] == e[1..] + rest;
    SkipFree(e[1..], rest, specials);
    assert s[..at] == s[..pos] + s[pos..at];
    assert e == e[..1] + e[1..];
  }

  lemma ReplaceEnd(s: string, specials: set<char>, pos: nat)
    requires pos <= |s| && Free(s[pos..], specials)
    ensures s[..pos] + Escape(s[pos..], specials) == s
  {
    EscapeFree(s[pos..], specials);
  }

  /** Appends text to an SSML document under construction, escaping only the addition. */
  method AppendTextSegment(old_sofar: string, addition: string) returns (sofar: string)
    ensures sofar == old_sofar + Escape(addition, TEXT_SPECIALS)
  {
    sofar := old_sofar;
    if addition == "" {
      assert sofar + "" == sofar;
      return;
    }
    var pos: nat := |sofar|;
    sofar := sofar + addition;
    assert sofar[..pos] == old_sofar && sofar[pos..] == addition;
    ghost var target := old_sofar + Escape(addition, TEXT_SPECIALS);
    var specials := TEXT_SPECIALS;
    var found, at := FindFirstOf(sofar, specials, pos);
    while found
      invariant pos <= |sofar| && sofar[..pos] + Escape(sofar[pos..], specials) == target
      invariant found ==> pos <= at < |sofar| && sofar[at] in specials && Free(sofar[pos..at], specials)
      invariant !found ==> Free(sofar[pos..], specials)
      decreases Ahead(sofar[pos..], specials), found
    {
      ReplaceStep(sofar, specials, pos, at);
      ghost var was := sofar;
      match sofar[at] {
        case '<' => sofar := sofar[..at] + "&lt;" + sofar[at + 1..];
        case _ => sofar := sofar[..at] + "&amp;" + sofar[at + 1..];
      }
      assert sofar == was[..at] + Entity(was[at]) + was[at + 1..];
      pos := at + 1;
      found, at := FindFirstOf(sofar, specials, pos);
    }
    ReplaceEnd(sofar, specials, pos);
  }

  // The three-way replace loop of AddSSMLAttribute.
  method EscapeAttribute(original: string) returns (attrString: string)
    ensures attrString == Escape(original, ATTRIBUTE_SPECIALS)
  {
    hide Escape, Ahead, Free;
    attrString := original;
    var pos: nat := 0;
    assert original[..0] == "" && original[0..] == original;
    var specials := ATTRIBUTE_SPECIALS;
    ghost var target := Escape(original, specials);
    var found, at := FindFirstOf(attrString, specials, pos);
    while found
      invariant pos <= |attrString|
      invariant attrString[..pos] + Escape(attrString[pos..], specials) == target
      invariant found ==> pos <= at < |attrString| && attrString[at] in specials && Free(attrString[pos..at], specials)
      invariant !found ==> Free(attrString[pos..], specials)
      decreases Ahead(attrString[pos..], specials), found
    {
      ReplaceStep(attrString, specials, pos, at);
      ghost var was := attrString;
      match attrString[at] {
        case '"' => attrString := attrString[..at] + "&quot;" + attrString[at + 1..];
        case '<' => attrString := attrString[..at] + "&lt;" + attrString[at + 1..];
        case _ => attrString := attrString[..at] + "&amp;" + attrString[at + 1..];
      }
      assert attrString == was[..at] + Entity(was[at]) + was[at + 1..];
      pos := at + 1;
      found, at := FindFirstOf(attrString, specials, pos);
    }
    ReplaceEnd(attrString, specials, pos);
  }

  /** Writes ` name="value"` with the attribute's own value, or the default when the attribute is
      missing or empty, or nothing when there is no default either. */
  method AddSSMLAttribute(attribute: Option<string>, defaultVal: Option<string>, name: string, old_sofar: string)
    returns (sofar: string)
    ensures sofar ==
            if attribute.Some? && attribute.value != ""
            then old_sofar + " " + name + "=\"" + Escape(attribute.value, ATTRIBUTE_SPECIALS) + "\""
            else if defaultVal.Some?
            then old_sofar + " " + name + "=\"" + Escape(defaultVal.value, ATTRIBUTE_SPECIALS) + "\""
            else old_sofar
  {
    sofar := old_sofar;
    var attrString := if attribute.Some? then attribute.value else "";
    if attribute.None? || attrString == "" {
      if defaultVal.None? { return; }
      attrString := defaultVal.value;
    }
    sofar := sofar + " ";
    sofar := sofar + name;
    sofar := sofar + "=\"";

    attrString := EscapeAttribute(attrString);

    sofar := sofar + attrString;
    sofar := sofar + "\"";
  }
}
