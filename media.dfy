/**
 * The media phase of each program: what becomes of the `media` index file.
 * `extract_media` (mcp_server/anki_logic.py:22-141) first tries the file as
 * JSON and otherwise runs the delimited scan; the two scripts always
 * decompress and scan, convert_anki.py backwards from image extensions
 * (lines 29-193), convert_anki_checklist.py forwards after a leftover
 * extension loop (lines 29-167). File contents, the JSON reading and zstd
 * decompression enter as parameters.
 */
module Media {
  import opened Wrappers
  import opened Utf8
  import opened Decimal
  import opened Blob
  import opened Recovery
  import DelimitedScan
  import BackwardScan

  /**
   * What `json.load` can return, as far as `extract_media` looks at it: an
   * object (string values only), an array or a string have a length; a
   * number, `true`/`false` or `null` does not.
   */
  datatype Json =
    | JObject(entries: map<string, string>)
    | JArray(length: nat)
    | JString(text: string)
    | JNumber(integral: bool)
    | JBool
    | JNull

  /** `len(value)`, or `None` where it raises `TypeError`. */
  function Len(j: Json): Option<nat>
  {
    match j
    case JObject(entries) => Some(|entries|)
    case JArray(length) => Some(length)
    case JString(text) => Some(|text|)
    case _ => None
  }

  /** Python's type name for a value without a length. */
  function TypeName(j: Json): string
  {
    match j
    case JNumber(integral) => if integral then "int" else "float"
    case JBool => "bool"
    case _ => "NoneType"
  }

  /** The `TypeError` message of `len` on such a value. */
  function NoLen(j: Json): string
  {
    "object of type '" + TypeName(j) + "' has no len()"
  }

  /** The first result of `extract_media`: a scanned dictionary, or the JSON value as loaded. */
  datatype MediaMap = Scanned(entries: map<string, string>) | Loaded(json: Json)

  /**
   * `extract_media`. `mediaExists` says whether the `media` file exists,
   * `json` is what `json.load` makes of it (`None` where it raises),
   * `decompressed` the zstd-decompressed bytes or the decompressor's error
   * message, and `dir` the input directory (name to contents).
   */
  method ExtractMedia(mediaExists: bool, json: Option<Json>, decompressed: Result<seq<Byte>>, dir: map<string, seq<Byte>>)
    returns (media: MediaMap, message: string, copies: seq<Copy>)
    ensures !mediaExists ==> media == Scanned(map[]) && message == "No media file found." && copies == []
    ensures mediaExists && json.Some? && Len(json.value).Some? ==>
      media == Loaded(json.value) && message == "Loaded " + Show(Len(json.value).value) + " from JSON." && copies == []
    ensures mediaExists && (json.None? || Len(json.value).None?) && decompressed.Err? ==>
      media == (if json.None? then Scanned(map[]) else Loaded(json.value))
      && message == "Error extracting media: " + decompressed.message && copies == []
    ensures mediaExists && json.Some? && Len(json.value).None? && decompressed.Ok? ==>
      media == Loaded(json.value) && message == "Error extracting media: " + NoLen(json.value) && copies == []
    ensures mediaExists && json.None? && decompressed.Ok? ==>
      var recs := DelimitedScan.Records(decompressed.value);
      && media == Scanned(IndexOf(recs))
      && message == "Extracted " + Show(|IndexOf(recs)|) + " images using manual scan."
      && copies == DelimitedScan.PlannedCopies(recs, dir)
  {
    copies := [];
    if !mediaExists {
      return Scanned(map[]), "No media file found.", [];
    }
    if json.Some? {
      media := Loaded(json.value);
      var n := Len(json.value);
      if n.Some? {
        return media, "Loaded " + Show(n.value) + " from JSON.", [];
      }
    } else {
      media := Scanned(map[]);
    }
    if decompressed.Err? {
      return media, "Error extracting media: " + decompressed.message, [];
    }
    if media.Loaded? {
      // Every `media_map[key] = ...` raises inside the scan's own `try`, before
      // any copy, and the final `len(media_map)` raises again.
      return media, "Error extracting media: " + NoLen(media.json), [];
    }
    var entries;
    entries, copies := DelimitedScan.Scan(decompressed.value, dir);
    media := Scanned(entries);
    message := "Extracted " + Show(|entries|) + " images using manual scan.";
  }

  /**
   * The count `extract_media` reports after a scan is the number of distinct
   * keys, which never exceeds the number of records read.
   */
  lemma ScanCountBounded(data: seq<Byte>)
    ensures Parse(Show(|IndexOf(DelimitedScan.Records(data))|)) == |IndexOf(DelimitedScan.Records(data))|
    ensures |IndexOf(DelimitedScan.Records(data))| <= FoundCount(DelimitedScan.Records(data))
  {
    ParseShow(|IndexOf(DelimitedScan.Records(data))|);
    IndexSize(DelimitedScan.Records(data));
  }

  /** convert_anki.py:29-193: decompress, then the backward scan; a failed decompression leaves the map empty. */
  method ConvertAnkiMedia(mediaExists: bool, decompressed: Result<seq<Byte>>, dir: map<string, seq<Byte>>)
    returns (mediaMap: map<string, string>, copies: seq<Copy>)
    ensures !(mediaExists && decompressed.Ok?) ==> mediaMap == map[] && copies == []
    ensures mediaExists && decompressed.Ok? ==>
      var recs := BackwardScan.Recovered(decompressed.value, dir.Keys);
      mediaMap == IndexOf(recs) && copies == BackwardScan.PlannedCopies(recs, dir)
  {
    mediaMap, copies := map[], [];
    if mediaExists && decompressed.Ok? {
      mediaMap, copies := BackwardScan.Scan(decompressed.value, dir);
    }
  }

  /**
   * The length-prefix search convert_anki_checklist.py:48-77 still runs for
   * the match ending at `end`: it records a start for every matching length
   * byte and keeps going, so the last (largest) distance wins.
   */
  function LastStartIn(data: seq<Byte>, end: nat, dist: nat): (r: Option<nat>)
    requires end <= |data|
    ensures r.Some? ==> (dist <= end - r.value < BackwardScan.MaxDist && 1 <= r.value <= end
      && data[r.value - 1] == end - r.value)
    decreases BackwardScan.MaxDist - dist
  {
    if dist >= BackwardScan.MaxDist || end < dist + 1 then None
    else
      var later := LastStartIn(data, end, dist + 1);
      if later.Some? then later
      else if data[end - dist - 1] == dist then Some(end - dist)
      else None
  }

  /** The value `fn_start` holds after the leftover loop: from the last match that had any candidate. */
  function LeftoverStart(data: seq<Byte>, ends: seq<nat>): (r: Option<nat>)
    requires forall k :: 0 <= k < |ends| ==> ends[k] <= |data|
    ensures r.Some? ==> exists k :: (0 <= k < |ends| && BackwardScan.MinDist <= ends[k] - r.value < BackwardScan.MaxDist
      && 1 <= r.value <= ends[k] && data[r.value - 1] == ends[k] - r.value)
  {
    if ends == [] then None
    else
      var last := LastStartIn(data, ends[|ends| - 1], BackwardScan.MinDist);
      if last.Some? then last else LeftoverStart(data, ends[..|ends| - 1])
  }

  /** The leftover loop (convert_anki_checklist.py:48-77): it only assigns the local `fn_start`. */
  method LeftoverLoop(data: seq<Byte>) returns (fnStart: Option<nat>)
    ensures fnStart == LeftoverStart(data, BackwardScan.MatchesFrom(data, 0))
  {
    var ends := BackwardScan.MatchesFrom(data, 0);
    fnStart := None;
    for m := 0 to |ends|
      invariant fnStart == LeftoverStart(data, ends[..m])
    {
      LeftoverStep(data, ends[..m + 1]);
      assert ends[..m + 1][..m] == ends[..m];
      fnStart := DistanceLoop(data, ends[m], fnStart);
    }
    assert ends[..|ends|] == ends;
  }

  /** One more match: its last candidate start, if any, replaces `fn_start`. */
  lemma LeftoverStep(data: seq<Byte>, ends: seq<nat>)
    requires |ends| > 0 && forall k :: 0 <= k < |ends| ==> ends[k] <= |data|
    ensures var last := LastStartIn(data, ends[|ends| - 1], BackwardScan.MinDist);
      LeftoverStart(data, ends) == if last.Some? then last else LeftoverStart(data, ends[..|ends| - 1])
  {
  }

  /** The inner `for dist in range(5, 255)` of the leftover loop for the match ending at `extEnd`. */
  method DistanceLoop(data: seq<Byte>, extEnd: nat, fnStart: Option<nat>) returns (r: Option<nat>)
    requires extEnd <= |data|
    ensures r == if LastStartIn(data, extEnd, BackwardScan.MinDist).Some? then LastStartIn(data, extEnd, BackwardScan.MinDist) else fnStart
  {
    r := fnStart;
    var dist := BackwardScan.MinDist;
    while dist < BackwardScan.MaxDist
      invariant BackwardScan.MinDist <= dist <= BackwardScan.MaxDist
      invariant (if LastStartIn(data, extEnd, dist).Some? then LastStartIn(data, extEnd, dist) else r)
        == (if LastStartIn(data, extEnd, BackwardScan.MinDist).Some? then LastStartIn(data, extEnd, BackwardScan.MinDist) else fnStart)
    {
      var posLenByte := extEnd - dist - 1;
      if posLenByte < 0 {
        break;
      }
      LastStartStep(data, extEnd, dist);
      var potentialLen := data[posLenByte];
      if potentialLen == dist {
        r := Some(posLenByte + 1);
      }
      dist := dist + 1;
    }
  }

  /** One distance of the search: a later candidate wins over this one. */
  lemma LastStartStep(data: seq<Byte>, end: nat, dist: nat)
    requires dist < BackwardScan.MaxDist && dist + 1 <= end <= |data|
    ensures var later := LastStartIn(data, end, dist + 1);
      LastStartIn(data, end, dist) == if later.Some? then later else if data[end - dist - 1] == dist then Some(end - dist) else None
  {
  }

  /**
   * convert_anki_checklist.py:29-167: decompress, run the leftover loop and
   * discard what it computed, then the delimited scan. The dictionary is the
   * delimited scan's alone.
   */
  method ChecklistMedia(mediaExists: bool, decompressed: Result<seq<Byte>>, dir: map<string, seq<Byte>>)
    returns (mediaMap: map<string, string>, copies: seq<Copy>)
    ensures !(mediaExists && decompressed.Ok?) ==> mediaMap == map[] && copies == []
    ensures mediaExists && decompressed.Ok? ==>
      var recs := DelimitedScan.Records(decompressed.value);
      mediaMap == IndexOf(recs) && copies == DelimitedScan.PlannedCopies(recs, dir)
  {
    mediaMap, copies := map[], [];
    if mediaExists && decompressed.Ok? {
      var data := decompressed.value;
      var _ := LeftoverLoop(data);
      mediaMap, copies := DelimitedScan.Scan(data, dir);
    }
  }
}
