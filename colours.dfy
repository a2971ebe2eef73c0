/**
 * Colour answers in index.js: the validator, the lookup in the list of
 * standard colour names, and the conversion of an answer to its standard
 * spelling. The list, which the program reads from a JSON file, is a parameter.
 */
module Colours {
  import opened Wrappers
  import opened JsString
  import opened Validators

  predicate IsHexDigit(c: char)
  {
    ('0' <= c <= '9') || ('a' <= c <= 'f') || ('A' <= c <= 'F')
  }

  /** The language of `/^#([A-Fa-f0-9]{6}|[A-Fa-f0-9]{3})$/`: the `#rgb` and
      `#rrggbb` hexadecimal notations of section 4.2.1 of CSS Color Module Level 3. */
  predicate HexColour(s: string)
  {
    && (|s| == 4 || |s| == 7)
    && s[0] == '#'
    && forall i | 1 <= i < |s| :: IsHexDigit(s[i])
  }

  /** What the lookup compares against the lower-cased list entries: the answer
      trimmed, lower-cased and stripped of all white space. */
  function Simplified(userEntry: string): (key: string)
    ensures NoWhitespace(key)
    ensures forall i | 0 <= i < |key| :: !('A' <= key[i] <= 'Z')
    ensures key == RemoveWhitespace(ToLower(userEntry))
  {
    var key := RemoveWhitespace(ToLower(Trim(userEntry)));
    RemoveWhitespaceToLower(Trim(userEntry));
    RemoveWhitespaceTrim(userEntry);
    RemoveWhitespaceToLower(userEntry);
    key
  }

  /** The index of the first entry of `list` whose lower-cased form is `key`, or `|list|`. */
  function FirstMatch(list: seq<string>, key: string): (k: nat)
    ensures k <= |list|
    ensures forall j | 0 <= j < k :: ToLower(list[j]) != key
    ensures k < |list| ==> ToLower(list[k]) == key
  {
    if list == [] then 0
    else if ToLower(list[0]) == key then 0
    else 1 + FirstMatch(list[1..], key)
  }

  /** `findColourInStandardList`: the first list entry that equals the simplified
      answer up to case, or nothing. */
  function FindColourInStandardList(list: seq<string>, userEntry: string): (r: Option<string>)
    ensures r.Some? ==> r.value in list && ToLower(r.value) == Simplified(userEntry)
    ensures r.None? <==> forall e | e in list :: ToLower(e) != Simplified(userEntry)
    ensures r.Some? ==> exists k | 0 <= k < |list| ::
      list[k] == r.value && forall j | 0 <= j < k :: ToLower(list[j]) != Simplified(userEntry)
  {
    var key := Simplified(userEntry);
    var k := FirstMatch(list, key);
    if k < |list| then
      assert list[k] in list;
      assert forall j | 0 <= j < k :: ToLower(list[j]) != key;
      Some(list[k])
    else
      assert forall e | e in list :: ToLower(e) != key by {
        forall e | e in list
          ensures ToLower(e) != key
        {
          var j :| 0 <= j < |list| && list[j] == e;
        }
      }
      None
  }

  /** JavaScript's truthiness of the lookup's result: `undefined` and `''` are false. */
  predicate Found(r: Option<string>)
  {
    r.Some? && r.value != ""
  }

  /** The lookup finds something usable exactly when the simplified answer is
      not empty and some entry equals it up to case. */
  lemma FoundIffListed(list: seq<string>, userEntry: string)
    ensures Found(FindColourInStandardList(list, userEntry))
      <==> Simplified(userEntry) != "" && exists e | e in list :: ToLower(e) == Simplified(userEntry)
  {
    var r := FindColourInStandardList(list, userEntry);
    if r.Some? {
      assert |ToLower(r.value)| == |r.value|;
    }
  }

  const EmptyColourMessage := "Please enter a valid colour."
  const UnknownColourMessage := "Please enter a valid colour, either a hex colour or a standard CSS/JS colour name."

  /** `logoColourValidator`. */
  function LogoColourValidator(list: seq<string>, value: string): (v: Verdict)
    ensures value == "" ==> v == Reject(EmptyColourMessage)
    ensures value != "" && HexColour(value) ==> v == Accept
    ensures v == Accept <==>
      value != "" && (HexColour(value) || (Simplified(value) != "" && exists e | e in list :: ToLower(e) == Simplified(value)))
    ensures value != "" && v != Accept ==> v == Reject(UnknownColourMessage)
  {
    FoundIffListed(list, value);
    if value == "" then Reject(EmptyColourMessage)
    else if HexColour(value) then Accept
    else if Found(FindColourInStandardList(list, value)) then Accept
    else Reject(UnknownColourMessage)
  }

  /** `convertColourToStandardName`: the found list entry, or the answer unchanged. */
  function ConvertColourToStandardName(list: seq<string>, userEntry: string): (r: string)
    ensures r == userEntry || r in list
    ensures r != userEntry ==> ToLower(r) == Simplified(userEntry)
    ensures Found(FindColourInStandardList(list, userEntry)) ==> r == FindColourInStandardList(list, userEntry).value
    ensures !Found(FindColourInStandardList(list, userEntry)) ==> r == userEntry
  {
    var found := FindColourInStandardList(list, userEntry);
    if Found(found) then found.value else userEntry
  }

  /** A hex code that no entry spells passes through untouched. */
  lemma HexCodePassesThrough(list: seq<string>, userEntry: string)
    requires HexColour(userEntry)
    requires forall e | e in list :: ToLower(e) != ToLower(userEntry)
    ensures ConvertColourToStandardName(list, userEntry) == userEntry
  {
    assert NoWhitespace(userEntry) by {
      forall i | 0 <= i < |userEntry|
        ensures !IsWhitespace(userEntry[i])
      {
        assert i == 0 || IsHexDigit(userEntry[i]);
      }
    }
    var lower := ToLower(userEntry);
    assert NoWhitespace(lower);
    assert Simplified(userEntry) == lower;
  }

  /** A standard name is its own standard name: converting twice is converting once. */
  lemma ConvertIdempotent(list: seq<string>, userEntry: string)
    ensures ConvertColourToStandardName(list, ConvertColourToStandardName(list, userEntry))
         == ConvertColourToStandardName(list, userEntry)
  {
    var found := FindColourInStandardList(list, userEntry);
    if Found(found) {
      var f, key := found.value, Simplified(userEntry);
      assert ToLower(f) == key;
      assert NoWhitespace(ToLower(f));
      assert Simplified(f) == key;
    }
  }

  /** An answer in lower case without white space is its own lookup key. */
  lemma PlainSimplified(name: string)
    requires NoWhitespace(name)
    requires forall i | 0 <= i < |name| :: !('A' <= name[i] <= 'Z')
    ensures Simplified(name) == name
  {
    var lower := ToLower(name);
    assert lower == name by {
      forall i | 0 <= i < |name|
        ensures lower[i] == name[i]
      {
        assert lower[i] == LowerChar(name[i]);
      }
    }
    assert RemoveWhitespace(lower) == name;
  }

  /** A non-empty entry of the list, written in lower case without white space, is accepted as an answer. */
  lemma ListedNameAccepted(list: seq<string>, name: string)
    requires name in list && name != ""
    requires NoWhitespace(name)
    requires forall i | 0 <= i < |name| :: !('A' <= name[i] <= 'Z')
    ensures LogoColourValidator(list, name) == Accept
  {
    var r := FindColourInStandardList(list, name);
    assert r.Some? && ToLower(r.value) == name by {
      PlainSimplified(name);
      assert ToLower(name) == Simplified(name);
    }
    assert Found(r) by {
      assert |ToLower(r.value)| == |r.value|;
    }
  }

  /** The default text colour passes when the list holds it. */
  lemma DefaultTextColourAccepted(list: seq<string>)
    requires "white" in list
    ensures LogoColourValidator(list, "white") == Accept
  {
    ListedNameAccepted(list, "white");
  }

  /** The default shape colour passes when the list holds it. */
  lemma DefaultShapeColourAccepted(list: seq<string>)
    requires "blue" in list
    ensures LogoColourValidator(list, "blue") == Accept
  {
    ListedNameAccepted(list, "blue");
  }
}
