/**
 * The source-key choice of the delimited scan (mcp_server/anki_logic.py:52-59
 * and 88-95, convert_anki_checklist.py:82-86 and 115-122): which file of the
 * deck directory holds the blob for an index key whose single character may
 * have been transliterated by a keyboard-layout shift.
 */
module KeyResolver {
  import opened Wrappers
  import opened Decimal

  /** `shift_map`: shifted punctuation of a German keyboard to the digit on the same key. */
  const ShiftMap: map<string, string> := map[
    "!" := "1", "\"" := "2", "§" := "3", "$" := "4", "%" := "5", "&" := "6",
    "/" := "7", "(" := "8", ")" := "9", "=" := "0", "+" := "*"]

  /** `str(ord(key[0]))`: the decimal code point of a one-character key. */
  function CodePointName(key: string): (r: string)
    requires |key| == 1
    ensures forall i :: 0 <= i < |r| ==> IsDigit(r[i])
    ensures Parse(r) == key[0] as int
  {
    ParseShow(key[0] as int);
    Show(key[0] as int)
  }

  /** `src_key` after the fallbacks: the first name that exists, or the key itself. */
  function ResolveSource(key: string, existing: set<string>): (src: string)
    ensures key in existing ==> src == key
    ensures src in existing || src == key
    ensures src != key ==> key !in existing
    ensures src != key && key in ShiftMap && ShiftMap[key] in existing ==> src == ShiftMap[key]
    ensures src != key && !(key in ShiftMap && ShiftMap[key] in existing) ==> |key| == 1 && src == CodePointName(key)
  {
    if key in existing then key
    else if key in ShiftMap && ShiftMap[key] in existing then ShiftMap[key]
    else if |key| == 1 && CodePointName(key) in existing then CodePointName(key)
    else key
  }

  /** The names tried for `key`, most preferred first. */
  function Candidates(key: string): (r: seq<string>)
    ensures |r| >= 1 && r[0] == key
  {
    [key] + (if key in ShiftMap then [ShiftMap[key]] else [])
          + (if |key| == 1 then [CodePointName(key)] else [])
  }

  /** The position of the first name of `names` that exists, if any. */
  function FirstExisting(names: seq<string>, existing: set<string>): (r: Option<nat>)
    ensures r.Some? ==> r.value < |names| && names[r.value] in existing
    ensures r.Some? ==> forall j :: 0 <= j < r.value ==> names[j] !in existing
    ensures r.None? <==> forall i :: 0 <= i < |names| ==> names[i] !in existing
  {
    if names == [] then None
    else if names[0] in existing then Some(0)
    else match FirstExisting(names[1..], existing)
      case None => None
      case Some(i) => Some(i + 1)
  }

  /** The resolver picks the first existing candidate in the order key, shift alias, code point, and keeps the key when none exists. */
  lemma ResolveIsFirstExisting(key: string, existing: set<string>)
    ensures ResolveSource(key, existing) ==
      match FirstExisting(Candidates(key), existing)
      case Some(i) => Candidates(key)[i]
      case None => key
  {
    var c := Candidates(key);
    if key in ShiftMap {
      ShiftKeysAreSingleCharacters(key);
      assert c == [key, ShiftMap[key], CodePointName(key)];
      FirstOfThree(key, ShiftMap[key], CodePointName(key), existing);
    } else if |key| == 1 {
      assert c == [key, CodePointName(key)];
      FirstOfTwo(key, CodePointName(key), existing);
    } else {
      assert c == [key];
    }
  }

  /** `FirstExisting` on two names. */
  lemma FirstOfTwo(x: string, y: string, existing: set<string>)
    ensures FirstExisting([x, y], existing) ==
      if x in existing then Some(0) else if y in existing then Some(1) else None
  {
    assert [x, y][1..] == [y];
  }

  /** `FirstExisting` on three names. */
  lemma FirstOfThree(x: string, y: string, z: string, existing: set<string>)
    ensures FirstExisting([x, y, z], existing) ==
      if x in existing then Some(0) else if y in existing then Some(1) else if z in existing then Some(2) else None
  {
    assert [x, y, z][1..] == [y, z];
    FirstOfTwo(y, z, existing);
  }

  /** Every alias names a one-character key, so the alias and code-point fallbacks only fire for one-character keys. */
  lemma ShiftKeysAreSingleCharacters(key: string)
    requires key in ShiftMap
    ensures |key| == 1 && |ShiftMap[key]| == 1
  {
  }
}
