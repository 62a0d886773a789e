/**
 * Tag normalisation of the add and edit forms: lower-case the text, drop every
 * character that is neither a word character nor white space, trim, and add
 * the result to the form's tag set unless it is empty or already there.
 */
module Tags {
  import opened Text

  predicate IsWordOrSpace(c: char) {
    IsWordChar(c) || IsSpace(c)
  }

  /** `s.replace(/[^\w\s]/g, '')`: the word and white-space characters of `s`, in order. */
  function KeepWordOrSpace(s: string): (r: string)
    ensures |r| <= |s|
    ensures forall i :: 0 <= i < |r| ==> IsWordOrSpace(r[i])
    ensures forall c :: c in r ==> c in s
    ensures forall c :: c in s && IsWordOrSpace(c) ==> c in r
    ensures (forall i :: 0 <= i < |s| ==> IsWordOrSpace(s[i])) ==> r == s
  {
    if s == [] then []
    else if IsWordOrSpace(s[0]) then [s[0]] + KeepWordOrSpace(s[1..])
    else KeepWordOrSpace(s[1..])
  }

  /** What a stored tag looks like: non-empty, lower case, only word and white-space characters, trimmed. */
  predicate IsNormalTag(t: string) {
    && t != []
    && IsTrimmed(t)
    && forall i :: 0 <= i < |t| ==> IsWordOrSpace(t[i]) && !IsUpper(t[i])
  }

  /** A tag list as the forms build it: every tag normal, none twice. */
  predicate WellFormedTags(tags: seq<string>) {
    && (forall i :: 0 <= i < |tags| ==> IsNormalTag(tags[i]))
    && (forall i, j :: 0 <= i < j < |tags| ==> tags[i] != tags[j])
  }

  /** No tag twice, as in a `Set`. */
  predicate NoRepeats(tags: seq<string>) {
    forall i, j :: 0 <= i < j < |tags| ==> tags[i] != tags[j]
  }

  predicate HasWordChar(s: string) {
    exists i :: 0 <= i < |s| && IsWordChar(s[i])
  }

  /**
   * The normalisation expression of the add and edit forms. The result is
   * either empty or a normal tag, and it is empty exactly when the input holds
   * no word character.
   */
  function NormaliseTag(raw: string): (r: string)
    ensures r == [] || IsNormalTag(r)
    ensures r == [] <==> !HasWordChar(raw)
  {
    var r := Trim(KeepWordOrSpace(ToLower(raw)));
    NormalisedShape(raw, r);
    r
  }

  lemma NormalisedShape(raw: string, r: string)
    requires r == Trim(KeepWordOrSpace(ToLower(raw)))
    ensures r == [] || IsNormalTag(r)
    ensures r == [] <==> !HasWordChar(raw)
  {
    var lowered := ToLower(raw);
    var kept := KeepWordOrSpace(lowered);
    var k :| TrimmedFrom(kept, r, k);
    assert r == [] || IsNormalTag(r) by {
      NoUpperKept(lowered);
      InfixChars(kept, r, k);
    }
    if HasWordChar(raw) {
      WordCharSurvives(raw, kept, r, k);
    } else {
      OnlySpaceSurvives(raw, kept, r, k);
    }
  }

  /** The trimmed block of a string of lower-case word and white-space characters is a normal tag or empty. */
  lemma InfixChars(kept: string, r: string, k: int)
    requires TrimmedFrom(kept, r, k) && IsTrimmed(r)
    requires HasNoUpper(kept)
    requires forall j :: 0 <= j < |kept| ==> IsWordOrSpace(kept[j])
    ensures r == [] || IsNormalTag(r)
  {
    forall i | 0 <= i < |r| ensures IsWordOrSpace(r[i]) && !IsUpper(r[i]) {
      assert r[i] == kept[k + i];
    }
  }

  lemma NoUpperKept(lowered: string)
    requires HasNoUpper(lowered)
    ensures HasNoUpper(KeepWordOrSpace(lowered))
  {
    var kept := KeepWordOrSpace(lowered);
    forall j | 0 <= j < |kept| ensures !IsUpper(kept[j]) {
      assert kept[j] in lowered;
    }
  }

  lemma WordCharSurvives(raw: string, kept: string, r: string, k: int)
    requires HasWordChar(raw)
    requires kept == KeepWordOrSpace(ToLower(raw))
    requires TrimmedFrom(kept, r, k)
    ensures r != []
  {
    var lowered := ToLower(raw);
    var i :| 0 <= i < |raw| && IsWordChar(raw[i]);
    var c := lowered[i];
    assert IsWordChar(c) && c in lowered;
    assert c in kept;
    var j :| 0 <= j < |kept| && kept[j] == c;
    assert !IsSpace(kept[j]);
  }

  lemma OnlySpaceSurvives(raw: string, kept: string, r: string, k: int)
    requires !HasWordChar(raw)
    requires kept == KeepWordOrSpace(ToLower(raw))
    requires TrimmedFrom(kept, r, k) && IsTrimmed(r)
    ensures r == []
  {
  }

  /** Normalising a normalised tag changes nothing. */
  lemma NormaliseTagIdempotent(raw: string)
    ensures NormaliseTag(NormaliseTag(raw)) == NormaliseTag(raw)
  {
    var t := NormaliseTag(raw);
    if t != [] {
      assert ToLower(t) == t;
      assert KeepWordOrSpace(t) == t;
      TrimOfTrimmed(t);
    }
  }

  /**
   * Adding the text typed into a tag box to the form's tag set (a `Set`, which
   * keeps insertion order): the normalised text is appended unless it is
   * empty or already present.
   */
  function AddTag(tags: seq<string>, raw: string): (r: seq<string>)
    ensures r == tags || r == tags + [NormaliseTag(raw)]
    ensures r != tags <==> NormaliseTag(raw) != [] && NormaliseTag(raw) !in tags
    ensures NormaliseTag(raw) != [] ==> NormaliseTag(raw) in r
    ensures WellFormedTags(tags) ==> WellFormedTags(r)
    ensures NoRepeats(tags) ==> NoRepeats(r)
  {
    if raw == [] then tags
    else
      var t := NormaliseTag(raw);
      if t != [] && t !in tags then
        WellFormedSnoc(tags, t);
        tags + [t]
      else tags
  }

  lemma WellFormedSnoc(tags: seq<string>, t: string)
    requires IsNormalTag(t) && t !in tags
    ensures WellFormedTags(tags) ==> WellFormedTags(tags + [t])
  {
    var r := tags + [t];
    if WellFormedTags(tags) {
      forall i, j | 0 <= i < j < |r| ensures r[i] != r[j] {
        if j == |tags| {
          assert r[i] == tags[i];
        } else {
          assert r[i] == tags[i] && r[j] == tags[j];
        }
      }
      forall i | 0 <= i < |r| ensures IsNormalTag(r[i]) {
        if i < |tags| {
          assert r[i] == tags[i];
        }
      }
    }
  }

  /** Re-entering a tag the item already carries (the edit form starts from the item's tags) is a no-op. */
  lemma {:induction false} AddExistingTag(tags: seq<string>, t: string)
    requires IsNormalTag(t) && t in tags
    ensures AddTag(tags, t) == tags
  {
    TrimOfTrimmed(t);
    assert ToLower(t) == t;
    assert KeepWordOrSpace(t) == t;
    assert NormaliseTag(t) == t;
  }

  /** `new Set(tags)`: every tag once, at its first occurrence, in order. */
  function TagSet(tags: seq<string>): (r: seq<string>)
    ensures forall t :: t in r <==> t in tags
    ensures NoRepeats(r)
    ensures NoRepeats(tags) ==> r == tags
  {
    if tags == [] then []
    else
      var init := tags[..|tags| - 1];
      var last := tags[|tags| - 1];
      var rest := TagSet(init);
      assert tags == init + [last];
      if last in rest then rest else rest + [last]
  }

  /** `set.delete(t)`, the remove button of a tag preview: the list without `t`, in order. */
  function RemoveTag(tags: seq<string>, t: string): (r: seq<string>)
    ensures forall x :: x in r <==> x in tags && x != t
    ensures NoRepeats(tags) ==> NoRepeats(r)
    ensures WellFormedTags(tags) ==> WellFormedTags(r)
  {
    if tags == [] then []
    else
      var rest := RemoveTag(tags[1..], t);
      assert forall x :: x in tags <==> x == tags[0] || x in tags[1..];
      if tags[0] == t then rest
      else
        ConsNoRepeats(tags, rest);
        [tags[0]] + rest
  }

  lemma ConsNoRepeats(tags: seq<string>, rest: seq<string>)
    requires tags != []
    requires NoRepeats(tags[1..]) ==> NoRepeats(rest)
    requires forall x :: x in rest ==> x in tags[1..]
    ensures NoRepeats(tags) ==> NoRepeats([tags[0]] + rest)
  {
    if NoRepeats(tags) {
      assert NoRepeats(tags[1..]) by {
        forall i, j | 0 <= i < j < |tags[1..]| ensures tags[1..][i] != tags[1..][j] {
          assert tags[1..][i] == tags[i + 1] && tags[1..][j] == tags[j + 1];
        }
      }
      assert tags[0] !in tags[1..] by {
        forall k | 0 <= k < |tags[1..]| ensures tags[1..][k] != tags[0] {
          assert tags[1..][k] == tags[k + 1];
        }
      }
      var r := [tags[0]] + rest;
      forall i, j | 0 <= i < j < |r| ensures r[i] != r[j] {
        if i == 0 {
          assert r[j] == rest[j - 1];
        } else {
          assert r[i] == rest[i - 1] && r[j] == rest[j - 1];
        }
      }
    }
  }
}
