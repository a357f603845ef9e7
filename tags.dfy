/**
 * Tags: a key/value pair written `key=value`, how such strings are joined
 * and split, and the validation applied to a tag submitted over the API.
 */
module Tags {
  import opened Wrappers

  /** The reserved separator between a tag's key and its value. */
  const Delimiter: char := '='

  datatype Tag = Tag(key: string, value: string)

  // ---------------------------------------------------------------------------
  // Joining and splitting

  /** `key + "=" + value`. */
  function Join(key: string, value: string): (s: string)
    ensures |s| == |key| + 1 + |value|
    ensures s[..|key|] == key && s[|key|] == Delimiter && s[|key| + 1..] == value
  {
    key + [Delimiter] + value
  }


  /** Position of the first occurrence of `c` in `s`, if any. */
  function IndexOf(s: string, c: char): (r: Option<nat>)
    ensures r.None? <==> c !in s
    ensures r.Some? ==> r.value < |s| && s[r.value] == c && c !in s[..r.value]
  {
    if |s| == 0 then None
    else if s[0] == c then Some(0)
    else
      match IndexOf(s[1..], c)
      case None => None
      case Some(i) =>
        assert s[..i + 1] == [s[0]] + s[1..][..i];
        Some(i + 1)
  }

  /**
   * Python's `tag.split("=", maxsplit=1)`: cut at the first delimiter only,
   * so one part when there is no delimiter and two parts otherwise.
   */
  function Split(tag: string): (parts: seq<string>)
    ensures 1 <= |parts| <= 2
    ensures |parts| == 1 <==> Delimiter !in tag
    ensures |parts| == 1 ==> parts[0] == tag
    ensures |parts| == 2 ==> Delimiter !in parts[0] && Join(parts[0], parts[1]) == tag
  {
    match IndexOf(tag, Delimiter)
    case None => [tag]
    case Some(i) =>
      assert tag == tag[..i] + [Delimiter] + tag[i + 1..];
      [tag[..i], tag[i + 1..]]
  }

  /** A joined string determines its parts, provided the key holds no delimiter. */
  lemma {:induction false} JoinInjective(k1: string, v1: string, k2: string, v2: string)
    requires Delimiter !in k1 && Delimiter !in k2
    requires Join(k1, v1) == Join(k2, v2)
    ensures k1 == k2 && v1 == v2
  {
    if |k1| < |k2| {
      assert false;
    } else if |k2| < |k1| {
      assert false;
    }
  }

  /** Splitting undoes joining; a delimiter inside the value survives. */
  lemma SplitJoin(key: string, value: string)
    requires Delimiter !in key
    ensures Split(Join(key, value)) == [key, value]
  {
    var s := Join(key, value);
    assert s[|key|] == Delimiter;
    var parts := Split(s);
    JoinInjective(parts[0], parts[1], key, value);
  }

  /** The canonical string form of a tag; it splits back into the tag's key and value. */
  function Representation(t: Tag): (s: string)
    ensures s == Join(t.key, t.value)
  {
    Join(t.key, t.value)
  }

  lemma RepresentationSplits(t: Tag)
    requires Delimiter !in t.key
    ensures Split(Representation(t)) == [t.key, t.value]
  {
    SplitJoin(t.key, t.value);
  }

  /** Joining the two parts of a split gives the original string back. */
  lemma JoinSplit(tag: string)
    requires Delimiter in tag
    ensures |Split(tag)| == 2 && Join(Split(tag)[0], Split(tag)[1]) == tag
  {
  }

  /** Two tags whose keys hold no delimiter have the same form only if equal. */
  lemma RepresentationInjective(a: Tag, b: Tag)
    requires Delimiter !in a.key && Delimiter !in b.key
    requires Representation(a) == Representation(b)
    ensures a == b
  {
    JoinInjective(a.key, a.value, b.key, b.value);
  }

  // ---------------------------------------------------------------------------
  // Whitespace stripping (Python `str.strip()` with no argument)

  /** The characters for which Python's `str.isspace()` holds. */
  predicate IsWhitespace(c: char) {
    c == ' ' || '\t' <= c <= '\r' || '\U{1C}' <= c <= '\U{1F}'
    || c == '\U{85}' || c == '\U{A0}' || c == '\U{1680}'
    || '\U{2000}' <= c <= '\U{200A}' || c == '\U{2028}' || c == '\U{2029}'
    || c == '\U{202F}' || c == '\U{205F}' || c == '\U{3000}'
  }

  predicate AllWhitespace(s: string) {
    forall i :: 0 <= i < |s| ==> IsWhitespace(s[i])
  }

  /** Neither end of `s` is whitespace. */
  predicate Trimmed(s: string) {
    |s| == 0 || (!IsWhitespace(s[0]) && !IsWhitespace(s[|s| - 1]))
  }

  /** Number of whitespace characters at the front of `s`. */
  function LeadingSpace(s: string): (n: nat)
    ensures n <= |s|
    ensures forall k :: 0 <= k < n ==> IsWhitespace(s[k])
    ensures n < |s| ==> !IsWhitespace(s[n])
  {
    if |s| > 0 && IsWhitespace(s[0]) then 1 + LeadingSpace(s[1..]) else 0
  }

  /** Number of whitespace characters at the back of `s`. */
  function TrailingSpace(s: string): (n: nat)
    ensures n <= |s|
    ensures forall k :: |s| - n <= k < |s| ==> IsWhitespace(s[k])
    ensures n < |s| ==> !IsWhitespace(s[|s| - n - 1])
  {
    if |s| > 0 && IsWhitespace(s[|s| - 1]) then
      var p := s[..|s| - 1];
      var m := TrailingSpace(p);
      assert forall k :: 0 <= k < |p| ==> p[k] == s[k];
      1 + m
    else 0
  }

  function Strip(s: string): (r: string)
    ensures Trimmed(r)
    ensures |r| == 0 <==> AllWhitespace(s)
    ensures forall i :: 0 <= i < |r| ==> r[i] in s
  {
    var lo := LeadingSpace(s);
    var t := s[lo..];
    var r := t[..|t| - TrailingSpace(t)];
    StripCore(s, lo, TrailingSpace(t));
    r
  }

  lemma StripCore(s: string, lo: nat, m: nat)
    requires lo == LeadingSpace(s) && m == TrailingSpace(s[lo..])
    ensures var r := s[lo..][..|s| - lo - m];
      Trimmed(r) && (|r| == 0 <==> AllWhitespace(s)) && forall i :: 0 <= i < |r| ==> r[i] in s
  {
    var t := s[lo..];
    var r := t[..|t| - m];
    assert forall k :: 0 <= k < |r| ==> r[k] == s[lo + k];
    if |r| == 0 {
      assert lo == |s|;
    } else {
      assert r[0] == s[lo];
      assert r[|r| - 1] == t[|t| - m - 1];
    }
  }

  /** Stripping removes exactly the whitespace margins around a trimmed core. */
  lemma {:induction false} StripMargins(left: string, core: string, right: string)
    requires AllWhitespace(left) && AllWhitespace(right) && Trimmed(core)
    ensures Strip(left + core + right) == core
  {
    var s := left + core + right;
    LeadingSpaceOf(left, core + right);
    assert s == left + (core + right);
    var t := s[LeadingSpace(s)..];
    if |core| == 0 {
      assert AllWhitespace(s);
    } else {
      assert t == core + right;
      TrailingSpaceOf(core, right);
    }
  }

  lemma {:induction false} LeadingSpaceOf(left: string, rest: string)
    requires AllWhitespace(left)
    requires |rest| == 0 || !IsWhitespace(rest[0]) || AllWhitespace(rest)
    ensures LeadingSpace(left + rest) == |left| + (if AllWhitespace(rest) then |rest| else 0)
    decreases |rest|, |left|
  {
    if |left| > 0 {
      assert (left + rest)[1..] == left[1..] + rest;
      LeadingSpaceOf(left[1..], rest);
    } else {
      assert left + rest == rest;
      if AllWhitespace(rest) && |rest| > 0 {
        LeadingSpaceOf(rest[..1], rest[1..]);
        assert rest[..1] + rest[1..] == rest;
      }
    }
  }

  lemma {:induction false} TrailingSpaceOf(core: string, right: string)
    requires AllWhitespace(right) && |core| > 0 && !IsWhitespace(core[|core| - 1])
    ensures TrailingSpace(core + right) == |right|
  {
    if |right| > 0 {
      assert (core + right)[..|core + right| - 1] == core + right[..|right| - 1];
      TrailingSpaceOf(core, right[..|right| - 1]);
    }
  }

  // ---------------------------------------------------------------------------
  // Validation

  /** The characters `[a-z0-9_]`. */
  predicate IsKeyChar(c: char) {
    'a' <= c <= 'z' || '0' <= c <= '9' || c == '_'
  }

  /** The key validator `^[a-z0-9_]+\Z` of the Tag model. */
  function ValidKey(key: string): (r: bool)
    ensures r ==> |key| > 0 && Delimiter !in key
  {
    |key| > 0 && forall i :: 0 <= i < |key| ==> IsKeyChar(key[i])
  }

  /** A valid key holds neither the delimiter nor whitespace. */
  lemma ValidKeyClean(key: string)
    requires ValidKey(key)
    ensures Delimiter !in key && Trimmed(key) && Strip(key) == key
  {
    StripMargins([], key, []);
    assert [] + key + [] == key;
  }

  /**
   * `Blank` and `NullCharacter` are the text field's own refusals: of an empty
   * or all-whitespace tag, and of a tag holding the NUL character.
   */
  datatype TagError = Blank | NullCharacter | MissingDelimiter | EmptyKey | InvalidKey

  /**
   * The submitted tag string must contain a delimiter; the key before it is
   * stripped of surrounding whitespace, must then be non-empty and must match
   * the key pattern; the tag is re-joined from the stripped key and the
   * untouched value.
   */
  function ValidateTag(input: string): (r: Result<string, TagError>)
    ensures r == Err(MissingDelimiter) <==> Delimiter !in input
    ensures r.Ok? ==> |Split(input)| == 2 && ValidKey(Strip(Split(input)[0]))
    ensures r.Ok? ==> Split(r.value) == [Strip(Split(input)[0]), Split(input)[1]]
  {
    var parts := Split(input);
    if |parts| < 2 then Err(MissingDelimiter)
    else
      var key := Strip(parts[0]);
      if |key| == 0 then Err(EmptyKey)
      else if !ValidKey(key) then Err(InvalidKey)
      else
        ValidKeyClean(key);
        SplitJoin(key, parts[1]);
        Ok(Join(key, parts[1]))
  }

  /** The outcome of validating `key=value`, stated on the key and value. */
  lemma ValidateJoined(key: string, value: string)
    requires Delimiter !in key
    ensures ValidateTag(Join(key, value)) ==
      if |Strip(key)| == 0 then Err(EmptyKey)
      else if !ValidKey(Strip(key)) then Err(InvalidKey)
      else Ok(Join(Strip(key), value))
  {
    SplitJoin(key, value);
  }

  /** A validated tag passes validation again unchanged. */
  lemma ValidateIdempotent(input: string)
    requires ValidateTag(input).Ok?
    ensures ValidateTag(ValidateTag(input).value) == ValidateTag(input)
  {
    var parts := Split(input);
    var key := Strip(parts[0]);
    ValidKeyClean(key);
    ValidateJoined(key, parts[1]);
  }

  /**
   * The tag field's path into the serializer's `to_internal_value`: the text
   * field trims the whole submitted string and refuses it when nothing is
   * left or when it holds a NUL character; `validate_tag` then checks the
   * trimmed string, and the validated
   * tag is split into the key and value from which the tag is looked up or
   * created.
   */
  function ToInternalValue(input: string): (r: Result<Tag, TagError>)
    ensures r == Err(Blank) <==> AllWhitespace(input)
    ensures !AllWhitespace(input) ==> (r == Err(NullCharacter) <==> '\0' in Strip(input))
    ensures !AllWhitespace(input) && '\0' !in Strip(input) ==> (r.Ok? <==> ValidateTag(Strip(input)).Ok?)
    ensures !AllWhitespace(input) && '\0' !in Strip(input) && r.Err? ==> r.error == ValidateTag(Strip(input)).error
    ensures r.Ok? ==> '\0' !in Representation(r.value)
    ensures r.Ok? ==> ValidKey(r.value.key) && Representation(r.value) == ValidateTag(Strip(input)).value
    ensures r.Ok? ==> r.value.key == Strip(Split(Strip(input))[0]) && r.value.value == Split(Strip(input))[1]
  {
    var trimmed := Strip(input);
    if |trimmed| == 0 then Err(Blank)
    else if '\0' in trimmed then Err(NullCharacter)
    else
      match ValidateTag(trimmed)
      case Err(e) => Err(e)
      case Ok(tag) =>
        var parts := Split(tag);
        Ok(Tag(parts[0], parts[1]))
  }

  /** Whitespace at the end of the submitted string is dropped from the value. */
  lemma TrailingValueSpaceDropped()
    ensures ToInternalValue(Join("k", "v ")) == Ok(Tag("k", "v"))
  {
    assert ValidKey("k");
    assert "v" + " " == "v ";
    PaddedValue("k", "v", " ");
  }

  /** Whitespace after a value that ends in a visible character is dropped. */
  lemma PaddedValue(key: string, value: string, pad: string)
    requires ValidKey(key) && |value| > 0 && !IsWhitespace(value[|value| - 1])
    requires '\0' !in key && '\0' !in value && AllWhitespace(pad)
    ensures ToInternalValue(Join(key, value + pad)) == Ok(Tag(key, value))
  {
    var core := Join(key, value);
    StrippedPaddedValue(key, value, pad);
    ValidKeyClean(key);
    ValidateJoined(key, value);
    assert ValidateTag(core) == Ok(core);
    SplitJoin(key, value);
  }

  lemma StrippedPaddedValue(key: string, value: string, pad: string)
    requires ValidKey(key) && |value| > 0 && !IsWhitespace(value[|value| - 1])
    requires '\0' !in key && '\0' !in value && AllWhitespace(pad)
    ensures Strip(Join(key, value + pad)) == Join(key, value)
    ensures '\0' !in Join(key, value) && |Join(key, value)| > 0
  {
    var core := Join(key, value);
    assert !IsWhitespace(key[0]);
    assert Trimmed(core) by {
      assert core[0] == key[0] && core[|core| - 1] == value[|value| - 1];
    }
    assert Join(key, value + pad) == [] + core + pad;
    StripMargins([], core, pad);
    NoNullInJoin(key, value);
  }

  lemma NoNullInJoin(key: string, value: string)
    requires '\0' !in key && '\0' !in value
    ensures '\0' !in Join(key, value)
  {
    var core := Join(key, value);
    forall i | 0 <= i < |core| ensures core[i] != '\0' {
      if i < |key| { assert core[i] == key[i]; }
      else if i > |key| { assert core[i] == value[i - |key| - 1]; }
    }
  }

  /** A NUL character in the value is refused before `validate_tag` runs. */
  lemma NullCharacterRefused()
    ensures ToInternalValue(Join("k", "\0")) == Err(NullCharacter)
  {
    assert Trimmed(Join("k", "\0"));
    assert Join("k", "\0") == [] + Join("k", "\0") + [];
    StripMargins([], Join("k", "\0"), []);
    assert Join("k", "\0")[2] == '\0';
  }

  /** A tag of spaces only is refused by the text field itself. */
  lemma BlankRefused()
    ensures ToInternalValue("   ") == Err(Blank)
  {
    assert AllWhitespace("   ");
  }

  /** Surrounding whitespace is trimmed from a lowercase key ... */
  lemma AcceptsPaddedKey()
    ensures ValidateTag(Join("  net_1 ", "up")) == Ok(Join("net_1", "up"))
  {
    assert "  " + "net_1" + " " == "  net_1 ";
    assert AllWhitespace("  ") && AllWhitespace(" ");
    assert ValidKey("net_1") by {
      forall i | 0 <= i < |"net_1"| ensures IsKeyChar("net_1"[i]) { }
    }
    PaddedKey("  ", "net_1", " ", "up");
  }

  /** ... but an upper-case letter in the key is still refused. */
  lemma RejectsUpperCaseKey()
    ensures ValidateTag(Join("  Net_1 ", "up")) == Err(InvalidKey)
  {
    assert "  " + "Net_1" + " " == "  Net_1 ";
    assert AllWhitespace("  ") && AllWhitespace(" ");
    assert !IsKeyChar("Net_1"[0]);
    PaddedKey("  ", "Net_1", " ", "up");
  }

  /** A key padded with any whitespace on either side validates as the bare key. */
  lemma PaddedKey(left: string, key: string, right: string, value: string)
    requires AllWhitespace(left) && AllWhitespace(right)
    requires |key| > 0 && Delimiter !in key && Trimmed(key)
    ensures ValidateTag(Join(left + key + right, value)) ==
      if ValidKey(key) then Ok(Join(key, value)) else Err(InvalidKey)
  {
    var padded := left + key + right;
    StripMargins(left, key, right);
    assert Delimiter !in padded by {
      forall i | 0 <= i < |padded| ensures padded[i] != Delimiter {
        if i < |left| {
          assert padded[i] == left[i];
        } else if i < |left| + |key| {
          assert padded[i] == key[i - |left|];
        } else {
          assert padded[i] == right[i - |left| - |key|];
        }
      }
    }
    ValidateJoined(padded, value);
  }

  /** A value containing the delimiter is kept whole. */
  lemma DelimiterInValue()
    ensures Split(Join("cpu", "load=high")) == ["cpu", "load=high"]
  {
    SplitJoin("cpu", "load=high");
  }
}
