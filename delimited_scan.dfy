/**
 * The forward scan for `\n KEY \n LEN FILENAME` records
 * (mcp_server/anki_logic.py:46-137; convert_anki_checklist.py:78-163 is the
 * same loop). One pass over the decompressed index buffer: at every newline
 * the key runs to the next newline found within the 50-byte window, the byte
 * after that newline is the filename length, and a filename that decodes and
 * contains `.` is recorded, sanitised, before its blob is looked up on disk.
 */
module DelimitedScan {
  import opened Wrappers
  import opened Utf8
  import opened Sanitize
  import opened KeyResolver
  import opened Blob
  import opened Recovery

  /** The inner loop looks for the key's closing newline below `i + 50`. */
  const KeyWindow: nat := 50

  /** Where `while j < n and j < i + 50 and data[j] != 10: j += 1` stops when started at `j`. */
  function KeyEndFrom(data: seq<Byte>, i: nat, j: nat): (e: nat)
    requires i < j <= |data| && j <= i + KeyWindow
    ensures j <= e <= |data| && e <= i + KeyWindow
    ensures forall k :: j <= k < e ==> data[k] != NewLine
    ensures e == |data| || e == i + KeyWindow || data[e] == NewLine
    decreases |data| - j
  {
    if j < |data| && j < i + KeyWindow && data[j] != NewLine then KeyEndFrom(data, i, j + 1) else j
  }

  /** The inner loop's result for the newline at `i`. */
  function KeyEnd(data: seq<Byte>, i: nat): nat
    requires i < |data|
  {
    KeyEndFrom(data, i, i + 1)
  }

  /**
   * What makes `f` the pair read at the newline `i` whose key closes at the
   * newline `j`. The loop stops at `j == i + 50` without testing that byte, so
   * the closing newline may sit exactly there: the key has at most 49 bytes.
   */
  predicate ValidRecord(data: seq<Byte>, i: nat, j: nat, f: Found)
  {
    && i < j && j + 1 < |data|
    && j <= i + KeyWindow
    && data[i] == NewLine && data[j] == NewLine
    && (forall k :: i < k < j ==> data[k] != NewLine)
    && Decode(data[i + 1..j]) == Some(f.key)
    && j + 2 + data[j + 1] <= |data|
    && Decode(data[j + 2..j + 2 + data[j + 1]]) == Some(f.name)
    && '.' in f.name
  }

  /** The pair the scan reads at position `i`, if any (lines 62-84 of anki_logic.py). */
  function RecordAt(data: seq<Byte>, i: nat): Option<Found>
    requires i < |data|
  {
    if data[i] != NewLine then None
    else
      var j := KeyEnd(data, i);
      if !(j < |data| && data[j] == NewLine) then None
      else NamedRecord(data, j, Decode(data[i + 1..j]))
  }

  /** After the key's closing newline `j`: the length byte and the filename it announces. */
  function NamedRecord(data: seq<Byte>, j: nat, key: Option<string>): Option<Found>
    requires j < |data|
  {
    if key.None? || !(j + 1 < |data|) then None
    else
      var end := j + 2 + data[j + 1];
      if !(end <= |data|) then None
      else match Decode(data[j + 2..end])
        case None => None
        case Some(name) => if '.' in name then Some(Found(key.value, name)) else None
  }

  /** What the scan reads at a position is a valid record: a key between two newlines, a filename of the announced length inside the buffer, containing `.`. */
  lemma RecordAtSound(data: seq<Byte>, i: nat)
    requires i < |data| && RecordAt(data, i).Some?
    ensures ValidRecord(data, i, KeyEnd(data, i), RecordAt(data, i).value)
  {
  }

  /** `RecordAt` finds every valid record: it is exactly the recogniser of `ValidRecord`. */
  lemma RecordAtComplete(data: seq<Byte>, i: nat, j: nat, f: Found)
    requires i < |data| && ValidRecord(data, i, j, f)
    ensures RecordAt(data, i) == Some(f)
  {
    KeyEndStops(data, i, i + 1, j);
    NamedRecordComplete(data, j, f);
  }

  /** The filename part of a valid record is read back by `NamedRecord`. */
  lemma NamedRecordComplete(data: seq<Byte>, j: nat, f: Found)
    requires j + 1 < |data| && j + 2 + data[j + 1] <= |data|
    requires Decode(data[j + 2..j + 2 + data[j + 1]]) == Some(f.name) && '.' in f.name
    ensures NamedRecord(data, j, Some(f.key)) == Some(f)
  {
  }

  /** The inner loop, started at `from`, stops at the first newline `j` inside the window. */
  lemma {:induction false} KeyEndStops(data: seq<Byte>, i: nat, from: nat, j: nat)
    requires i < from <= j < |data| && j <= i + KeyWindow && data[j] == NewLine
    requires forall k :: from <= k < j ==> data[k] != NewLine
    ensures KeyEndFrom(data, i, from) == j
    decreases j - from
  {
    if from < j {
      KeyEndStops(data, i, from + 1, j);
    }
  }

  /** Every scanned key holds no newline and comes from at most 49 bytes. */
  lemma RecordKeyShape(data: seq<Byte>, i: nat)
    requires i < |data| && RecordAt(data, i).Some?
    ensures var f := RecordAt(data, i).value;
      && (forall c :: 0 <= c < |f.key| ==> f.key[c] != '\n')
      && |Encode(f.key)| == KeyEnd(data, i) - i - 1 <= KeyWindow - 1
      && |f.key| <= KeyWindow - 1
  {
    RecordAtSound(data, i);
    var kb := data[i + 1..KeyEnd(data, i)];
    DecodeNoNewLine(kb);
    EncodeDecode(kb);
  }

  /** `while i < n - 5`: the positions the pass visits. */
  function ScanLimit(data: seq<Byte>): nat
  {
    if |data| > 5 then |data| - 5 else 0
  }

  /** What the pass reads at each position it visits, in order. */
  function Records(data: seq<Byte>): (recs: seq<Option<Found>>)
    ensures |recs| == ScanLimit(data)
  {
    seq(ScanLimit(data), i requires 0 <= i < ScanLimit(data) => RecordAt(data, i))
  }

  /** The copy planned for a pair: from the resolved source file, if it exists (lines 88-100). */
  function CopyFor(f: Found, dir: map<string, seq<Byte>>): seq<Copy>
  {
    var src := ResolveSource(f.key, dir.Keys);
    if src in dir then [PlanCopy(src, SanitizeFilename(f.name), dir[src])] else []
  }

  /** The copies planned for the pairs `recs`, in order. */
  function PlannedCopies(recs: seq<Option<Found>>, dir: map<string, seq<Byte>>): seq<Copy>
  {
    if recs == [] then []
    else
      var last := recs[|recs| - 1];
      PlannedCopies(recs[..|recs| - 1], dir) + if last.Some? then CopyFor(last.value, dir) else []
  }

  /** The inner loop: the first newline after `i`, looking no further than `i + 50`. */
  method FindKeyEnd(data: seq<Byte>, i: nat) returns (j: nat)
    requires i < |data|
    ensures j == KeyEnd(data, i)
  {
    j := i + 1;
    while j < |data| && j < i + KeyWindow && data[j] != NewLine
      invariant i + 1 <= j <= |data| && j <= i + KeyWindow
      invariant KeyEndFrom(data, i, j) == KeyEnd(data, i)
    {
      j := j + 1;
    }
  }

  /** The body of the scan at the newline test: the pair read at `i`, if any (lines 62-84 of anki_logic.py). */
  method ReadRecord(data: seq<Byte>, i: nat) returns (rec: Option<Found>)
    requires i < |data|
    ensures rec == RecordAt(data, i)
  {
    var n := |data|;
    rec := None;
    if data[i] == NewLine {
      var j := FindKeyEnd(data, i);
      if j < n && data[j] == NewLine {
        var key := Decode(data[i + 1..j]);
        rec := ReadName(data, j, key);
      }
    }
  }

  /** The length byte after the key and the filename it announces. */
  method ReadName(data: seq<Byte>, j: nat, key: Option<string>) returns (rec: Option<Found>)
    requires j < |data|
    ensures rec == NamedRecord(data, j, key)
  {
    var n := |data|;
    rec := None;
    if key.Some? && j + 1 < n {
      var length := data[j + 1];
      var startFn, endFn := j + 2, j + 2 + length;
      if endFn <= n {
        var filename := Decode(data[startFn..endFn]);
        if filename.Some? && '.' in filename.value {
          rec := Some(Found(key.value, filename.value));
        }
      }
    }
  }

  /** One more position scanned: its pair, if any, overwrites the map entry for its key and appends its copy. */
  lemma ScanStep(recs: seq<Option<Found>>, i: nat, dir: map<string, seq<Byte>>)
    requires i < |recs|
    ensures IndexOf(recs[..i + 1]) == if recs[i].Some? then IndexOf(recs[..i])[recs[i].value.key := SanitizeFilename(recs[i].value.name)] else IndexOf(recs[..i])
    ensures PlannedCopies(recs[..i + 1], dir) == PlannedCopies(recs[..i], dir) + if recs[i].Some? then CopyFor(recs[i].value, dir) else []
  {
    assert recs[..i + 1][..i] == recs[..i];
  }

  /**
   * The scan loop. `dir` is the deck directory (file name to contents);
   * `existing` is its listing, taken once before the loop. The dictionary
   * entry is written before the source key is resolved.
   */
  method Scan(data: seq<Byte>, dir: map<string, seq<Byte>>) returns (mediaMap: map<string, string>, copies: seq<Copy>)
    ensures mediaMap == IndexOf(Records(data))
    ensures copies == PlannedCopies(Records(data), dir)
  {
    var existing := dir.Keys;
    mediaMap, copies := map[], [];
    var i := 0;
    while i < |data| - 5
      invariant 0 <= i <= ScanLimit(data)
      invariant mediaMap == IndexOf(Records(data)[..i])
      invariant copies == PlannedCopies(Records(data)[..i], dir)
    {
      var rec := ReadRecord(data, i);
      ScanStep(Records(data), i, dir);
      if rec.Some? {
        var cleanName := SanitizeFilename(rec.value.name);
        mediaMap := mediaMap[rec.value.key := cleanName];
        var srcKey := ResolveSource(rec.value.key, existing);
        if srcKey in dir {
          copies := copies + [PlanCopy(srcKey, cleanName, dir[srcKey])];
        }
      }
      i := i + 1;
    }
    assert Records(data)[..i] == Records(data);
  }

  /** Every key in the scanned map was read at a newline `i < n - 5` as a valid record whose sanitised filename it holds. */
  lemma IndexEntrySound(data: seq<Byte>, key: string)
    requires key in IndexOf(Records(data))
    ensures exists i :: (0 <= i < ScanLimit(data) && RecordAt(data, i).Some?
      && ValidRecord(data, i, KeyEnd(data, i), RecordAt(data, i).value) && RecordAt(data, i).value.key == key
      && IndexOf(Records(data))[key] == SanitizeFilename(RecordAt(data, i).value.name))
  {
    var recs := Records(data);
    IndexIsLastFound(recs, key);
    var i := LastFound(recs, key).value;
    RecordAtSound(data, i);
  }

  /** Every record the pass reads leaves its key in the map, whether or not a file for it exists. */
  lemma IndexEntryComplete(data: seq<Byte>, i: nat)
    requires i < ScanLimit(data) && RecordAt(data, i).Some?
    ensures RecordAt(data, i).value.key in IndexOf(Records(data))
  {
    var recs := Records(data);
    IndexIsLastFound(recs, RecordAt(data, i).value.key);
    assert recs[i] == RecordAt(data, i);
  }

  /** A copy is planned only for a file that exists, resolved from a recorded key, towards that record's sanitised name. */
  lemma {:induction false} CopiesSound(recs: seq<Option<Found>>, dir: map<string, seq<Byte>>, m: nat)
    requires m < |PlannedCopies(recs, dir)|
    ensures var c := PlannedCopies(recs, dir)[m];
      && c.source in dir
      && c == PlanCopy(c.source, c.dest, dir[c.source])
      && exists i :: (0 <= i < |recs| && recs[i].Some?
           && ResolveSource(recs[i].value.key, dir.Keys) == c.source
           && SanitizeFilename(recs[i].value.name) == c.dest)
  {
    var init := recs[..|recs| - 1];
    var prev := PlannedCopies(init, dir);
    if m < |prev| {
      CopiesSound(init, dir, m);
      assert PlannedCopies(recs, dir)[m] == prev[m];
      var c := prev[m];
      var i :| 0 <= i < |init| && init[i].Some?
           && ResolveSource(init[i].value.key, dir.Keys) == c.source
           && SanitizeFilename(init[i].value.name) == c.dest;
      assert recs[i] == init[i];
    } else {
      var f := recs[|recs| - 1].value;
      assert PlannedCopies(recs, dir)[m] == CopyFor(f, dir)[0];
    }
  }
}
