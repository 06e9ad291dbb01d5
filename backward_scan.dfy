/**
 * The backward scan of convert_anki.py (lines 42-188). Every image extension
 * `\.(png|jpg|jpeg|gif|svg)` found in the decompressed index buffer is taken
 * as the end of a filename; the scan then looks back 5 to 254 bytes for a
 * length byte equal to its own distance from that end, and behind the length
 * byte for a key: one of the two lines before it (at most 19 bytes each) that
 * names a file present on disk.
 */
module BackwardScan {
  import opened Wrappers
  import opened Utf8
  import opened Sanitize
  import opened Blob
  import opened Recovery

  /** The alternatives of `\.(png|jpg|jpeg|gif|svg)`, in the order the pattern tries them. */
  const Extensions: seq<string> := ["png", "jpg", "jpeg", "gif", "svg"]

  /** `re.IGNORECASE` on a bytes pattern folds ASCII capitals only. */
  function FoldByte(b: Byte): Byte
  {
    if 'A' as int <= b <= 'Z' as int then b + 32 else b
  }

  /** A dot at `s` followed by `ext`, letter case ignored. */
  predicate ExtAt(data: seq<Byte>, s: nat, ext: string)
  {
    && s + 1 + |ext| <= |data|
    && data[s] == '.' as int
    && forall k :: 0 <= k < |ext| ==> FoldByte(data[s + 1 + k]) == ext[k] as int
  }

  /** The first of `alts` that matches at `s`, as the regex alternation tries them. */
  function FirstAlternative(data: seq<Byte>, s: nat, alts: seq<string>): (r: Option<string>)
    ensures r.Some? ==> r.value in alts && ExtAt(data, s, r.value)
    ensures r.None? ==> forall e :: e in alts ==> !ExtAt(data, s, e)
  {
    if alts == [] then None
    else if ExtAt(data, s, alts[0]) then Some(alts[0])
    else FirstAlternative(data, s, alts[1..])
  }

  /** The extension matched at `s`, if the pattern matches there. */
  function MatchAt(data: seq<Byte>, s: nat): Option<string>
  {
    FirstAlternative(data, s, Extensions)
  }

  /** `m.end()` for a match at `s`. */
  function MatchEnd(data: seq<Byte>, s: nat): (e: nat)
    requires MatchAt(data, s).Some?
    ensures s + 4 <= e <= |data|
  {
    s + 1 + |MatchAt(data, s).value|
  }

  /** `m.end()` of each match of `ext_pattern.finditer(data)` from `s` on: after a match the search resumes at its end. */
  function MatchesFrom(data: seq<Byte>, s: nat): (ends: seq<nat>)
    ensures forall k :: 0 <= k < |ends| ==> s < ends[k] <= |data|
    ensures forall k, l :: 0 <= k < l < |ends| ==> ends[k] < ends[l]
    decreases |data| - s
  {
    if s >= |data| then []
    else if MatchAt(data, s).Some? then [MatchEnd(data, s)] + MatchesFrom(data, MatchEnd(data, s))
    else MatchesFrom(data, s + 1)
  }

  /** No match starts inside another: the bytes after a matched dot are letters, never a dot. */
  lemma NoMatchInside(data: seq<Byte>, s: nat, t: nat)
    requires MatchAt(data, s).Some? && s < t < MatchEnd(data, s)
    ensures MatchAt(data, t).None?
  {
    var ext := MatchAt(data, s).value;
    assert FoldByte(data[s + 1 + (t - s - 1)]) == ext[t - s - 1] as int;
  }

  /** A match of the pattern starts at `t` and ends at `e`. */
  predicate EndsMatch(data: seq<Byte>, t: nat, e: nat)
  {
    t < |data| && MatchAt(data, t).Some? && MatchEnd(data, t) == e
  }

  /** `finditer` reports exactly one end per position where the pattern matches. */
  lemma MatchesExact(data: seq<Byte>, s: nat, e: nat)
    ensures e in MatchesFrom(data, s) <==> exists t :: s <= t && EndsMatch(data, t, e)
  {
    if e in MatchesFrom(data, s) {
      var t := MatchStart(data, s, e);
    }
    if exists t :: s <= t && EndsMatch(data, t, e) {
      var t :| s <= t && EndsMatch(data, t, e);
      MatchReported(data, s, t);
    }
  }

  /** Every reported end belongs to a match starting at or after `s`. */
  lemma {:induction false} MatchStart(data: seq<Byte>, s: nat, e: nat) returns (t: nat)
    requires e in MatchesFrom(data, s)
    ensures s <= t && EndsMatch(data, t, e)
    decreases |data| - s
  {
    assert s < |data|;
    if MatchAt(data, s).Some? {
      var m := MatchEnd(data, s);
      assert MatchesFrom(data, s) == [m] + MatchesFrom(data, m);
      if e == m {
        t := s;
      } else {
        t := MatchStart(data, m, e);
      }
    } else {
      assert MatchesFrom(data, s) == MatchesFrom(data, s + 1);
      t := MatchStart(data, s + 1, e);
    }
  }

  /** Every match starting at or after `s` is reported. */
  lemma {:induction false} MatchReported(data: seq<Byte>, s: nat, t: nat)
    requires s <= t < |data| && MatchAt(data, t).Some?
    ensures MatchEnd(data, t) in MatchesFrom(data, s)
    decreases t - s
  {
    if MatchAt(data, s).Some? {
      var m := MatchEnd(data, s);
      assert MatchesFrom(data, s) == [m] + MatchesFrom(data, m);
      if t < m && s < t {
        NoMatchInside(data, s, t);
        assert false;
      } else if s < t {
        MatchReported(data, m, t);
      }
    } else {
      assert MatchesFrom(data, s) == MatchesFrom(data, s + 1);
      MatchReported(data, s + 1, t);
    }
  }

  /** `data[k]` with Python's negative indices: `data[-1]` is the last byte. */
  function PyIndex(data: seq<Byte>, k: int): Byte
    requires -|data| <= k < |data|
  {
    if k < 0 then data[|data| + k] else data[k]
  }

  /** A slice bound as Python normalises it: negative counts from the end, then clamped to the buffer. */
  function PyBound(n: nat, k: int): (r: nat)
    ensures r <= n
  {
    if k < 0 then (if k + n < 0 then 0 else k + n) else if k > n then n else k
  }

  /** `data[lo:hi]` with Python's slice semantics. */
  function PySlice(data: seq<Byte>, lo: int, hi: int): seq<Byte>
  {
    var a, b := PyBound(|data|, lo), PyBound(|data|, hi);
    if a < b then data[a..b] else []
  }

  /** The longest a key line may be: the walk stops once `end - s` reaches 20. */
  const KeyLimit: nat := 19

  /**
   * `while s >= 0 and data[s] != 10 and (end - s) < 20: s -= 1`
   * (lines 93-94 and 112-113): the walk back over a key line.
   */
  function WalkBack(data: seq<Byte>, end: int, s: int): (r: int)
    requires s < |data| && s < end
    ensures r <= s && (s >= -1 ==> r >= -1)
    ensures forall k :: 0 <= k && r < k <= s ==> data[k] != NewLine
    ensures r < 0 || data[r] == NewLine || end - r >= KeyLimit + 1
    ensures end - r <= KeyLimit + 1 || r == s
    decreases s + 1
  {
    if s >= 0 && data[s] != NewLine && end - s <= KeyLimit then WalkBack(data, end, s - 1) else s
  }

  /**
   * Where the key line ending at `end` starts (`start = end - 1`, the walk,
   * then `start += 1`). With `end` below zero nothing is walked.
   */
  function KeyStart(data: seq<Byte>, end: int): (r: int)
    requires end <= |data|
    ensures end < 0 ==> r == end
    ensures end >= 0 ==> 0 <= r <= end && end - r <= KeyLimit
    ensures end >= 0 ==> forall k :: r <= k < end ==> data[k] != NewLine
    ensures end >= 0 ==> r == 0 || data[r - 1] == NewLine || end - r == KeyLimit
  {
    WalkBack(data, end, end - 1) + 1
  }

  /** A decoded key kept only when a file of that name exists (the `key in existing_files` test). */
  function Accepted(key: Option<string>, existing: set<string>): (r: Option<string>)
    ensures r.Some? <==> key.Some? && key.value in existing
    ensures r.Some? ==> r == key
  {
    if key.Some? && key.value in existing then key else None
  }

  /** Python truthiness of `valid_key`: `None` and the empty string are false. */
  predicate Truthy(key: Option<string>)
  {
    key.Some? && |key.value| > 0
  }

  /**
   * `valid_key` for the length byte at `pos` (lines 87-122), indices as Python
   * reads them: the line just before the length byte (Key1) is tried first,
   * the line before that (Key2) only when Key1 is not a truthy existing name
   * and a newline precedes Key1. At `pos == 0`, `data[pos - 1]` is the last
   * byte of the buffer.
   */
  function ValidKey(data: seq<Byte>, pos: int, existing: set<string>): Option<string>
    requires 2 <= |data| && 0 <= pos < |data|
  {
    if PyIndex(data, pos - 1) != NewLine then None
    else WithKey2(data, KeyStart(data, pos - 1), LineKey(data, pos - 1, existing), existing)
  }

  /** Key1 as found, or Key2 (the line ending just before `key1Start`) when Key1 is false and a newline precedes it. */
  function WithKey2(data: seq<Byte>, key1Start: int, key1: Option<string>, existing: set<string>): Option<string>
    requires 2 <= |data| && -1 <= key1Start <= |data|
  {
    if !Truthy(key1) && PyIndex(data, key1Start - 1) == NewLine then
      var key2 := LineKey(data, key1Start - 1, existing);
      if key2.Some? then key2 else key1
    else key1
  }

  /** The key line ending at `end`, ASCII-decoded and kept only if a file of that name exists. */
  function LineKey(data: seq<Byte>, end: int, existing: set<string>): Option<string>
    requires end <= |data|
  {
    Accepted(AsciiDecode(PySlice(data, KeyStart(data, end), end)), existing)
  }

  /**
   * What a truthy `valid_key` is: a non-empty ASCII name of an existing file,
   * read from a line of at most 19 bytes that ends in a newline and is one of
   * the two lines right before the length byte. The wrapped-around reads at
   * `pos == 0` or at a Key1 starting the buffer only ever yield the empty key.
   */
  lemma ValidKeySound(data: seq<Byte>, pos: int, existing: set<string>)
    requires 2 <= |data| && 0 <= pos < |data|
    requires Truthy(ValidKey(data, pos, existing))
    ensures var key := ValidKey(data, pos, existing).value;
      && key in existing && |key| > 0
      && 1 <= pos && data[pos - 1] == NewLine
      && KeyRead(data, pos, key)
  {
    if pos == 0 {
      ValidKeyAtStart(data, existing);
    } else {
      var key1Start := KeyStart(data, pos - 1);
      LineKeyInside(data, pos - 1, existing);
      if Truthy(LineKey(data, pos - 1, existing)) {
        Key1Line(data, pos);
      } else if key1Start > 0 {
        LineKeyInside(data, key1Start - 1, existing);
        Key2Line(data, pos);
      }
    }
  }

  /** Inside the buffer the Python slice of a key line is the plain slice. */
  lemma LineKeyInside(data: seq<Byte>, end: int, existing: set<string>)
    requires 0 <= end <= |data|
    ensures LineKey(data, end, existing) == Accepted(AsciiDecode(data[KeyStart(data, end)..end]), existing)
  {
    assert PySlice(data, KeyStart(data, end), end) == data[KeyStart(data, end)..end];
  }

  /** The line right before the length byte is a key line. */
  lemma Key1Line(data: seq<Byte>, pos: int)
    requires 1 <= pos < |data| && data[pos - 1] == NewLine
    ensures KeyLine(data, pos, KeyStart(data, pos - 1), pos - 1)
  {
  }

  /** So is the line before that, when a newline ends it. */
  lemma Key2Line(data: seq<Byte>, pos: int)
    requires 1 <= pos < |data| && data[pos - 1] == NewLine
    requires KeyStart(data, pos - 1) > 0 && data[KeyStart(data, pos - 1) - 1] == NewLine
    ensures var hi := KeyStart(data, pos - 1) - 1; KeyLine(data, pos, KeyStart(data, hi), hi)
  {
  }

  /**
   * A length byte at the very start of the buffer never gets a key: the reads
   * `data[-1]` and `data[-2]` wrap around to the end of the buffer, but the
   * slices they lead to are empty, and an empty key is false.
   */
  lemma ValidKeyAtStart(data: seq<Byte>, existing: set<string>)
    requires 2 <= |data|
    ensures !Truthy(ValidKey(data, 0, existing))
  {
    assert PySlice(data, -1, -1) == [];
    assert PySlice(data, -2, -2) == [];
  }

  /**
   * `data[lo..hi]` is a key line for the length byte at `pos`: at most 19
   * bytes, no newline inside, a newline right after, and nothing but one
   * newline-free line between it and the length byte.
   */
  predicate KeyLine(data: seq<Byte>, pos: int, lo: int, hi: int)
  {
    && 0 <= lo <= hi < pos <= |data|
    && hi - lo <= KeyLimit
    && data[hi] == NewLine && data[pos - 1] == NewLine
    && (forall k :: lo <= k < hi ==> data[k] != NewLine)
    && (forall k :: hi < k < pos - 1 ==> data[k] != NewLine)
  }

  /** `key` is the ASCII text of a key line for the length byte at `pos`. */
  ghost predicate KeyRead(data: seq<Byte>, pos: int, key: string)
  {
    exists lo, hi :: KeyLine(data, pos, lo, hi) && AsciiDecode(data[lo..hi]) == Some(key)
  }

  /** Key1 wins: when the line right before the length byte names an existing file, that line is the key. */
  lemma ValidKeyPrefersKey1(data: seq<Byte>, pos: int, existing: set<string>)
    requires 2 <= |data| && 1 <= pos < |data| && data[pos - 1] == NewLine
    requires var k1 := AsciiDecode(data[KeyStart(data, pos - 1)..pos - 1]);
      k1.Some? && k1.value in existing && |k1.value| > 0
    ensures ValidKey(data, pos, existing) == AsciiDecode(data[KeyStart(data, pos - 1)..pos - 1])
  {
    assert PySlice(data, KeyStart(data, pos - 1), pos - 1) == data[KeyStart(data, pos - 1)..pos - 1];
  }

  /** The distances tried: `range(5, 255)`. */
  const MinDist: nat := 5
  const MaxDist: nat := 255

  /**
   * The filename a length byte `dist` bytes before the end `end` announces:
   * the byte at `end - dist - 1` must equal `dist` and the bytes after it must
   * decode as UTF-8 (a failed decode is swallowed and the next distance tried).
   */
  function HitAt(data: seq<Byte>, end: nat, dist: nat): Option<string>
    requires dist + 1 <= end <= |data|
  {
    var pos := end - dist - 1;
    if data[pos] == dist then Decode(data[pos + 1..end]) else None
  }

  /**
   * Whether the search ends at distance `dist`: its length byte is a hit and
   * a truthy `valid_key` precedes it. Only then is `found` set (line 184); a
   * hit whose key is falsy, or whose filename does not decode, lets the loop
   * go on to the next distance.
   */
  predicate Keyed(data: seq<Byte>, end: nat, existing: set<string>, dist: nat)
    requires MinDist <= dist && dist + 1 <= end <= |data|
  {
    HitAt(data, end, dist).Some? && Truthy(ValidKey(data, end - dist - 1, existing))
  }

  /** The pair a distance that ends the search records: its key and its filename. */
  function PairAt(data: seq<Byte>, end: nat, existing: set<string>, dist: nat): (f: Found)
    requires MinDist <= dist && dist + 1 <= end <= |data| && Keyed(data, end, existing, dist)
    ensures HitAt(data, end, dist) == Some(f.name) && ValidKey(data, end - dist - 1, existing) == Some(f.key)
  {
    Found(ValidKey(data, end - dist - 1, existing).value, HitAt(data, end, dist).value)
  }

  /**
   * The first distance from `dist` on where the search ends, with the pair it
   * records; the loop stops at 255 or as soon as the length byte would fall
   * before the buffer.
   */
  function FirstKeyed(data: seq<Byte>, end: nat, existing: set<string>, dist: nat): (r: Option<(nat, Found)>)
    requires MinDist <= dist && end <= |data|
    ensures r.Some? ==> dist <= r.value.0 < MaxDist && r.value.0 + 1 <= end
    decreases MaxDist - dist
  {
    if dist >= MaxDist || end < dist + 1 then None
    else if Keyed(data, end, existing, dist) then Some((dist, PairAt(data, end, existing, dist)))
    else FirstKeyed(data, end, existing, dist + 1)
  }

  /** Where the search ends, the length byte is a hit with a truthy key, and the pair is the one recorded there. */
  lemma {:induction false} FirstKeyedEnds(data: seq<Byte>, end: nat, existing: set<string>, dist: nat)
    requires MinDist <= dist && end <= |data| && FirstKeyed(data, end, existing, dist).Some?
    ensures var (d, f) := FirstKeyed(data, end, existing, dist).value;
      Keyed(data, end, existing, d) && f == PairAt(data, end, existing, d)
    decreases MaxDist - dist
  {
    if !Keyed(data, end, existing, dist) {
      FirstKeyedEnds(data, end, existing, dist + 1);
    }
  }

  /**
   * The search from `dist` passes over every distance before the one it ends
   * at, and over every distance when it ends at none: none of them is a hit
   * with a truthy key.
   */
  lemma {:induction false} FirstKeyedIsFirst(data: seq<Byte>, end: nat, existing: set<string>, dist: nat, e: nat)
    requires MinDist <= dist <= e < MaxDist && e + 1 <= end <= |data|
    requires FirstKeyed(data, end, existing, dist).None? || e < FirstKeyed(data, end, existing, dist).value.0
    ensures !Keyed(data, end, existing, e)
    decreases e - dist
  {
    PassesOver(data, end, existing, dist);
    if e > dist {
      FirstKeyedIsFirst(data, end, existing, dist + 1, e);
    }
  }

  /** A distance before the one where the search ends is no hit with a truthy key, and the search goes on after it. */
  lemma PassesOver(data: seq<Byte>, end: nat, existing: set<string>, dist: nat)
    requires MinDist <= dist < MaxDist && dist + 1 <= end <= |data|
    requires FirstKeyed(data, end, existing, dist).None? || dist < FirstKeyed(data, end, existing, dist).value.0
    ensures !Keyed(data, end, existing, dist)
    ensures FirstKeyed(data, end, existing, dist) == FirstKeyed(data, end, existing, dist + 1)
  {
  }

  /**
   * What the scan records for the match ending at `end`: the filename and the
   * key of the smallest distance whose hit has a truthy `valid_key`.
   */
  function Candidate(data: seq<Byte>, end: nat, existing: set<string>): Option<Found>
    requires end <= |data|
  {
    match FirstKeyed(data, end, existing, MinDist)
    case None => None
    case Some((_, f)) => Some(f)
  }

  /** What the scan records for each match, in the order `finditer` yields them. */
  function Recovered(data: seq<Byte>, existing: set<string>): (recs: seq<Option<Found>>)
    ensures |recs| == |MatchesFrom(data, 0)|
  {
    var ends := MatchesFrom(data, 0);
    seq(|ends|, m requires 0 <= m < |ends| => Candidate(data, ends[m], existing))
  }

  /** The copy planned for a recovered pair: the key itself names the source file, when it exists. */
  function CopyFor(f: Found, dir: map<string, seq<Byte>>): seq<Copy>
  {
    if f.key in dir then [PlanCopy(f.key, SanitizeFilename(f.name), dir[f.key])] else []
  }

  /** The copies planned for the pairs `recs`, in order. */
  function PlannedCopies(recs: seq<Option<Found>>, dir: map<string, seq<Byte>>): seq<Copy>
  {
    if recs == [] then []
    else
      var last := recs[|recs| - 1];
      PlannedCopies(recs[..|recs| - 1], dir) + if last.Some? then CopyFor(last.value, dir) else []
  }

  /** One walk over a key line (lines 90-96 or 109-115). */
  method FindKeyStart(data: seq<Byte>, keyEnd: int) returns (keyStart: int)
    requires keyEnd <= |data|
    ensures keyStart == KeyStart(data, keyEnd)
  {
    keyStart := keyEnd - 1;
    while keyStart >= 0 && data[keyStart] != NewLine && keyEnd - keyStart < KeyLimit + 1
      invariant keyStart < keyEnd && keyStart < |data|
      invariant WalkBack(data, keyEnd, keyStart) == WalkBack(data, keyEnd, keyEnd - 1)
      decreases keyStart + 1
    {
      keyStart := keyStart - 1;
    }
    keyStart := keyStart + 1;
  }

  /**
   * One key line (lines 90-104 or 109-122): walk back to its start, decode it
   * as ASCII and keep it when a file of that name exists.
   */
  method ReadLineKey(data: seq<Byte>, keyEnd: int, existing: set<string>) returns (keyStart: int, key: Option<string>)
    requires keyEnd <= |data|
    ensures keyStart == KeyStart(data, keyEnd)
    ensures key == LineKey(data, keyEnd, existing)
  {
    keyStart := FindKeyStart(data, keyEnd);
    var decoded := AsciiDecode(PySlice(data, keyStart, keyEnd));
    key := None;
    if decoded.Some? && decoded.value in existing {
      key := decoded;
    }
  }

  /** The key line ending at `keyEnd`, without its start. */
  method ReadKey(data: seq<Byte>, keyEnd: int, existing: set<string>) returns (key: Option<string>)
    requires keyEnd <= |data|
    ensures key == LineKey(data, keyEnd, existing)
  {
    var _, k := ReadLineKey(data, keyEnd, existing);
    key := k;
  }

  /** Lines 87-122: the key for the length byte at `pos`. */
  method FindValidKey(data: seq<Byte>, pos: int, existing: set<string>) returns (validKey: Option<string>)
    requires 2 <= |data| && 0 <= pos < |data|
    ensures validKey == ValidKey(data, pos, existing)
  {
    validKey := None;
    if PyIndex(data, pos - 1) == NewLine {
      var key1Start, key1 := ReadLineKey(data, pos - 1, existing);
      validKey := TryKey2(data, key1Start, key1, existing);
    }
  }

  /** Lines 106-122: the fallback to Key2. */
  method TryKey2(data: seq<Byte>, key1Start: int, key1: Option<string>, existing: set<string>) returns (validKey: Option<string>)
    requires 2 <= |data| && -1 <= key1Start <= |data|
    ensures validKey == WithKey2(data, key1Start, key1, existing)
  {
    validKey := key1;
    if !Truthy(key1) && PyIndex(data, key1Start - 1) == NewLine {
      var key2 := ReadKey(data, key1Start - 1, existing);
      if key2.Some? {
        validKey := key2;
      }
    }
  }

  /**
   * One distance of the loop (lines 70-184): the pair recorded when the
   * length byte there is a hit with a truthy key, which ends the search, and
   * nothing otherwise, which passes the search on to the next distance.
   */
  method TryDistance(data: seq<Byte>, end: nat, existing: set<string>, dist: nat) returns (hit: Option<Found>)
    requires MinDist <= dist < MaxDist && dist + 1 <= end <= |data|
    ensures hit.Some? ==> FirstKeyed(data, end, existing, dist) == Some((dist, hit.value))
    ensures hit.None? ==> FirstKeyed(data, end, existing, dist) == FirstKeyed(data, end, existing, dist + 1)
  {
    hit := None;
    var posLenByte := end - dist - 1;
    if data[posLenByte] == dist {
      var filename := Decode(data[posLenByte + 1..end]);
      if filename.Some? {
        hit := PairAtHit(data, end, existing, dist, filename.value);
      } else {
        SearchSkips(data, end, existing, dist);
      }
    } else {
      SearchSkips(data, end, existing, dist);
    }
  }

  /** Lines 83-184 at a hit with filename `name`: the pair when a truthy key precedes its length byte. */
  method PairAtHit(data: seq<Byte>, end: nat, existing: set<string>, dist: nat, name: string) returns (hit: Option<Found>)
    requires MinDist <= dist < MaxDist && dist + 1 <= end <= |data| && HitAt(data, end, dist) == Some(name)
    ensures hit.Some? ==> FirstKeyed(data, end, existing, dist) == Some((dist, hit.value))
    ensures hit.None? ==> FirstKeyed(data, end, existing, dist) == FirstKeyed(data, end, existing, dist + 1)
  {
    hit := None;
    var validKey := FindValidKey(data, end - dist - 1, existing);
    if Truthy(validKey) {
      hit := Some(Found(validKey.value, name));
      SearchEndsAt(data, end, existing, dist);
    } else {
      SearchSkips(data, end, existing, dist);
    }
  }

  /** The distance loop for the match ending at `end` (lines 68-188). */
  method RecoverAt(data: seq<Byte>, end: nat, existing: set<string>) returns (hit: Option<Found>)
    requires end <= |data|
    ensures hit == Candidate(data, end, existing)
  {
    ghost var search := FirstKeyed(data, end, existing, MinDist);
    hit := None;
    var found := false;
    var dist := MinDist;
    while dist < MaxDist
      invariant MinDist <= dist <= MaxDist
      invariant FirstKeyed(data, end, existing, dist) == search
      invariant !found && hit == None
    {
      if end - dist - 1 < 0 {
        break;
      }
      hit := TryDistance(data, end, existing, dist);
      if hit.Some? {
        found := true;
        break;
      }
      dist := dist + 1;
    }
    if !found {
      SearchRunsOut(data, end, existing, dist);
    }
  }

  /**
   * A distance that ends no search passes it on to the next one: a length byte
   * that does not match, a filename that does not decode, or a hit whose key
   * is not truthy.
   */
  lemma SearchSkips(data: seq<Byte>, end: nat, existing: set<string>, dist: nat)
    requires MinDist <= dist < MaxDist && dist + 1 <= end <= |data|
    requires !Keyed(data, end, existing, dist)
    ensures FirstKeyed(data, end, existing, dist) == FirstKeyed(data, end, existing, dist + 1)
  {
  }

  /** A hit with a truthy key ends the search with its filename and that key. */
  lemma SearchEndsAt(data: seq<Byte>, end: nat, existing: set<string>, dist: nat)
    requires MinDist <= dist < MaxDist && dist + 1 <= end <= |data|
    requires Keyed(data, end, existing, dist)
    ensures FirstKeyed(data, end, existing, dist) == Some((dist, PairAt(data, end, existing, dist)))
  {
  }

  /** A search that ran out of distances, or reached the buffer start, records nothing. */
  lemma SearchRunsOut(data: seq<Byte>, end: nat, existing: set<string>, dist: nat)
    requires MinDist <= dist <= MaxDist && end <= |data|
    requires dist == MaxDist || end < dist + 1
    ensures FirstKeyed(data, end, existing, dist) == None
  {
  }

  /**
   * The backward scan over the decompressed buffer `data`; `dir` is the deck
   * directory (file name to contents), listed once before the scan. Every
   * recovered pair writes `media_map` and plans a copy of its blob.
   */
  method Scan(data: seq<Byte>, dir: map<string, seq<Byte>>) returns (mediaMap: map<string, string>, copies: seq<Copy>)
    ensures mediaMap == IndexOf(Recovered(data, dir.Keys))
    ensures copies == PlannedCopies(Recovered(data, dir.Keys), dir)
  {
    var existing := dir.Keys;
    var ends := MatchesFrom(data, 0);
    ghost var recs := Recovered(data, existing);
    mediaMap, copies := map[], [];
    for m := 0 to |ends|
      invariant mediaMap == IndexOf(recs[..m])
      invariant copies == PlannedCopies(recs[..m], dir)
    {
      var hit := RecoverAt(data, ends[m], existing);
      assert recs[..m + 1][..m] == recs[..m] && recs[..m + 1][m] == hit;
      if hit.Some? {
        var cleanName := SanitizeFilename(hit.value.name);
        mediaMap := mediaMap[hit.value.key := cleanName];
        if hit.value.key in dir {
          copies := copies + [PlanCopy(hit.value.key, cleanName, dir[hit.value.key])];
        }
      }
    }
    assert recs[..|ends|] == recs;
  }

  /** Every end `finditer` reports is the end of a match of the pattern. */
  lemma MatchEndsAreMatches(data: seq<Byte>, m: nat)
    requires m < |MatchesFrom(data, 0)|
    ensures exists t :: EndsMatch(data, t, MatchesFrom(data, 0)[m])
  {
    MatchesExact(data, 0, MatchesFrom(data, 0)[m]);
  }

  /**
   * The pair a distance records: its length byte equals the distance and is
   * followed by exactly the UTF-8 form of the filename, and its key is a
   * non-empty name in the listing, read from a key line just before that
   * length byte.
   */
  lemma PairAtSound(data: seq<Byte>, end: nat, existing: set<string>, dist: nat)
    requires MinDist <= dist && dist + 1 <= end <= |data| && Keyed(data, end, existing, dist)
    ensures var f := PairAt(data, end, existing, dist);
      && data[end - dist - 1] == dist && Encode(f.name) == data[end - dist..end]
      && f.key in existing && |f.key| > 0 && KeyRead(data, end - dist - 1, f.key)
  {
    var f := PairAt(data, end, existing, dist);
    PairKeySound(data, end, existing, dist);
    HitAtSound(data, end, dist, f.name);
  }

  /** The key of the pair a distance records is a non-empty listed name read from a key line before its length byte. */
  lemma PairKeySound(data: seq<Byte>, end: nat, existing: set<string>, dist: nat)
    requires MinDist <= dist && dist + 1 <= end <= |data| && Keyed(data, end, existing, dist)
    ensures var key := PairAt(data, end, existing, dist).key;
      key in existing && |key| > 0 && KeyRead(data, end - dist - 1, key)
  {
    ValidKeySound(data, end - dist - 1, existing);
  }

  /** A hit's length byte equals its distance and is followed by exactly the UTF-8 form of its filename. */
  lemma HitAtSound(data: seq<Byte>, end: nat, dist: nat, name: string)
    requires dist + 1 <= end <= |data| && HitAt(data, end, dist) == Some(name)
    ensures data[end - dist - 1] == dist && Encode(name) == data[end - dist..end]
  {
    EncodeDecode(data[end - dist..end]);
  }

  /**
   * What the scan records at a match ending at `end` comes from the first hit
   * with a truthy key: a distance 5 <= dist <= 254 whose pair the scan
   * records (see `PairAtSound`), with no smaller distance a hit with a truthy
   * key.
   */
  lemma CandidateSound(data: seq<Byte>, end: nat, existing: set<string>)
    requires end <= |data| && Candidate(data, end, existing).Some?
    ensures FirstKeyed(data, end, existing, MinDist).Some?
    ensures var (dist, f) := FirstKeyed(data, end, existing, MinDist).value;
      && f == Candidate(data, end, existing).value
      && MinDist <= dist < MaxDist && dist + 1 <= end
      && data[end - dist - 1] == dist && Encode(f.name) == data[end - dist..end]
      && f.key in existing && |f.key| > 0 && KeyRead(data, end - dist - 1, f.key)
      && (forall d :: MinDist <= d < dist ==> !Keyed(data, end, existing, d))
  {
    var (dist, f) := FirstKeyed(data, end, existing, MinDist).value;
    FirstKeyedEnds(data, end, existing, MinDist);
    PairAtSound(data, end, existing, dist);
    forall d | MinDist <= d < dist
      ensures !Keyed(data, end, existing, d)
    {
      FirstKeyedIsFirst(data, end, existing, MinDist, d);
    }
  }

  /**
   * A pair is recorded at a match exactly when some distance from 5 to 254
   * inside the buffer is a hit with a truthy key.
   */
  lemma CandidateExists(data: seq<Byte>, end: nat, existing: set<string>)
    requires end <= |data|
    ensures Candidate(data, end, existing).Some?
      <==> exists d :: MinDist <= d < MaxDist && d + 1 <= end && Keyed(data, end, existing, d)
  {
    var r := FirstKeyed(data, end, existing, MinDist);
    if r.Some? {
      FirstKeyedEnds(data, end, existing, MinDist);
    } else if d :| MinDist <= d < MaxDist && d + 1 <= end && Keyed(data, end, existing, d) {
      FirstKeyedIsFirst(data, end, existing, MinDist, d);
    }
  }

  /** With the directory listing as `existing`, every recovered pair has its blob copied. */
  lemma {:induction false} EveryPairCopied(recs: seq<Option<Found>>, dir: map<string, seq<Byte>>)
    requires forall i :: 0 <= i < |recs| && recs[i].Some? ==> recs[i].value.key in dir
    ensures |PlannedCopies(recs, dir)| == FoundCount(recs)
  {
    if recs != [] {
      EveryPairCopied(recs[..|recs| - 1], dir);
    }
  }

  /** The scan plans exactly one copy per recovered pair: `os.path.exists(src)` always holds for a key from the listing. */
  lemma ScanCopiesAll(data: seq<Byte>, dir: map<string, seq<Byte>>)
    ensures |PlannedCopies(Recovered(data, dir.Keys), dir)| == FoundCount(Recovered(data, dir.Keys))
  {
    var recs := Recovered(data, dir.Keys);
    forall i | 0 <= i < |recs| && recs[i].Some?
      ensures recs[i].value.key in dir
    {
      CandidateSound(data, MatchesFrom(data, 0)[i], dir.Keys);
    }
    EveryPairCopied(recs, dir);
  }

  /** The treatment an image of each matched extension gets: PNG and JPEG are re-encoded, GIF and SVG moved as they are. */
  function ExtTarget(ext: string): Target
  {
    if ext == "png" then Reencode(Png)
    else if ext == "jpg" || ext == "jpeg" then Reencode(Jpeg)
    else MoveAsIs
  }

  /** A four-character ending, character by character. */
  lemma EndsWith4(l: string, s: string)
    requires |s| == 4
    ensures EndsWith(l, s) <==> |l| >= 4 && l[|l| - 4] == s[0] && l[|l| - 3] == s[1] && l[|l| - 2] == s[2] && l[|l| - 1] == s[3]
  {
    if |l| >= 4 {
      var t := l[|l| - 4..];
      assert t[0] == l[|l| - 4] && t[1] == l[|l| - 3] && t[2] == l[|l| - 2] && t[3] == l[|l| - 1];
    }
  }

  /** A five-character ending, character by character. */
  lemma EndsWith5(l: string, s: string)
    requires |s| == 5
    ensures EndsWith(l, s) <==> |l| >= 5 && l[|l| - 5] == s[0] && l[|l| - 4] == s[1] && l[|l| - 3] == s[2] && l[|l| - 2] == s[3] && l[|l| - 1] == s[4]
  {
    if |l| >= 5 {
      var t := l[|l| - 5..];
      assert t[0] == l[|l| - 5] && t[1] == l[|l| - 4] && t[2] == l[|l| - 3] && t[3] == l[|l| - 2] && t[4] == l[|l| - 1];
    }
  }

  /** Which of the tested suffixes a text ending in `.` + `ext` has. */
  lemma SuffixesOfExtension(l: string, ext: string)
    requires ext in Extensions && EndsWith(l, "." + ext)
    ensures EndsWith(l, ".png") <==> ext == "png"
    ensures EndsWith(l, ".jpg") <==> ext == "jpg"
    ensures EndsWith(l, ".jpeg") <==> ext == "jpeg"
  {
    EndsWith4(l, ".png");
    EndsWith4(l, ".jpg");
    EndsWith5(l, ".jpeg");
    if ext == "jpeg" {
      EndsWith5(l, "." + ext);
    } else {
      EndsWith4(l, "." + ext);
    }
  }

  /** A name whose lower-cased form ends with `.` and one of the extensions gets that extension's treatment. */
  lemma TargetOfExtension(name: string, ext: string)
    requires ext in Extensions && EndsWith(Lower(name), "." + ext)
    ensures TargetFor(name) == ExtTarget(ext)
  {
    SuffixesOfExtension(Lower(name), ext);
  }

  /** The bytes `.` + extension at a match are ASCII, and decode to characters that fold to the extension. */
  lemma MatchIsAscii(data: seq<Byte>, t: nat)
    requires MatchAt(data, t).Some?
    ensures var b := data[t..MatchEnd(data, t)];
      && AsciiDecode(b).Some?
      && Lower(AsciiDecode(b).value) == "." + MatchAt(data, t).value
      && AllSafe(AsciiDecode(b).value)
  {
    var ext := MatchAt(data, t).value;
    var b := data[t..MatchEnd(data, t)];
    forall k | 1 <= k < |b|
      ensures FoldByte(b[k]) == ext[k - 1] as int
    {
      assert b[k] == data[t + 1 + (k - 1)];
    }
    ExtensionsAreLetters(ext);
    FoldedLetters(b, ext);
  }

  /** Every extension of the pattern is lower-case letters. */
  lemma ExtensionsAreLetters(ext: string)
    requires ext in Extensions
    ensures forall k :: 0 <= k < |ext| ==> 'a' <= ext[k] <= 'z'
  {
  }

  /** Bytes `.` + letters that fold to `ext` decode as ASCII to safe characters that lower-case to `.` + `ext`. */
  lemma FoldedLetters(b: seq<Byte>, ext: string)
    requires |b| == |ext| + 1 && b[0] == '.' as int
    requires forall k :: 0 <= k < |ext| ==> 'a' <= ext[k] <= 'z'
    requires forall k :: 1 <= k < |b| ==> FoldByte(b[k]) == ext[k - 1] as int
    ensures AsciiDecode(b).Some?
    ensures Lower(AsciiDecode(b).value) == "." + ext
    ensures AllSafe(AsciiDecode(b).value)
  {
    forall k | 1 <= k < |b|
      ensures b[k] < 0x80 && IsSafe(b[k] as char)
      ensures (if 'A' <= b[k] as char <= 'Z' then (b[k] + 32) as char else b[k] as char) == ext[k - 1]
    {
      assert 'a' <= ext[k - 1] <= 'z';
    }
    var chars := AsciiDecode(b).value;
    assert forall k :: 1 <= k < |b| ==> Lower(chars)[k] == ("." + ext)[k];
  }

  /** Sanitising keeps an all-safe tail, so the lower-cased result still ends with it. */
  lemma SanitizedKeepsTail(head: string, tail: string, suffix: string)
    requires AllSafe(tail) && Lower(tail) == suffix
    ensures EndsWith(Lower(SanitizeFilename(head + tail)), suffix)
  {
    SanitizeAppend(head, tail);
    SanitizeFixedPoints(tail);
    var front := SanitizeFilename(head);
    LowerAppend(front, tail);
    assert (Lower(front) + suffix)[|Lower(front)|..] == suffix;
  }

  /** A filename decoded from bytes ending at a match ends with the match's characters. */
  lemma NameEndsWithMatch(data: seq<Byte>, t: nat, start: nat, name: string)
    requires MatchAt(data, t).Some? && start <= t
    requires Decode(data[start..MatchEnd(data, t)]) == Some(name)
    ensures AsciiDecode(data[t..MatchEnd(data, t)]).Some?
    ensures Decode(data[start..t]).Some?
    ensures name == Decode(data[start..t]).value + AsciiDecode(data[t..MatchEnd(data, t)]).value
  {
    var end := MatchEnd(data, t);
    var head, tail := data[start..t], data[t..end];
    assert data[start..end] == head + tail;
    MatchIsAscii(data, t);
    DecodeAsciiSuffix(head, tail);
    assert name == Decode(head).value + AsciiDecode(tail).value;
  }

  /** A recovered filename is the decoding of the bytes right before the match end, some distance back. */
  lemma CandidateName(data: seq<Byte>, end: nat, existing: set<string>) returns (dist: nat)
    requires end <= |data| && Candidate(data, end, existing).Some?
    ensures MinDist <= dist < MaxDist && dist + 1 <= end
    ensures Decode(data[end - dist..end]) == Some(Candidate(data, end, existing).value.name)
  {
    dist := FirstKeyed(data, end, existing, MinDist).value.0;
    FirstKeyedEnds(data, end, existing, MinDist);
  }

  /**
   * The format the copy uses agrees with the extension the scan matched: a
   * filename found at a `.png` match is re-encoded as PNG, at `.jpg` or
   * `.jpeg` as JPEG, at `.gif` or `.svg` moved unchanged, whatever the case of
   * its letters and whatever sanitising removed in front of the extension.
   */
  lemma RecoveredTarget(data: seq<Byte>, existing: set<string>, t: nat)
    requires MatchAt(data, t).Some?
    requires Candidate(data, MatchEnd(data, t), existing).Some?
    ensures TargetFor(SanitizeFilename(Candidate(data, MatchEnd(data, t), existing).value.name))
      == ExtTarget(MatchAt(data, t).value)
  {
    var end := MatchEnd(data, t);
    var dist := CandidateName(data, end, existing);
    var name := Candidate(data, end, existing).value.name;
    NameEndsWithMatch(data, t, end - dist, name);
    var tail := AsciiDecode(data[t..end]).value;
    var head := Decode(data[end - dist..t]).value;
    MatchIsAscii(data, t);
    var ext := MatchAt(data, t).value;
    SanitizedKeepsTail(head, tail, "." + ext);
    TargetOfExtension(SanitizeFilename(name), ext);
  }
}
