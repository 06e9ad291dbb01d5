/**
 * The `media_map` dictionary both scanners fill: `media_map[key] = clean_name`
 * for each accepted (key, filename) pair, in the order the pairs are found
 * (mcp_server/anki_logic.py:83-84, convert_anki.py:126-127,
 * convert_anki_checklist.py:110-111).
 */
module Recovery {
  import opened Wrappers
  import opened Sanitize

  /** An accepted pair: the index key and the decoded, not yet sanitised, filename. */
  datatype Found = Found(key: string, name: string)

  /** The dictionary after the writes for `found`, in order: later writes overwrite earlier ones. */
  function IndexOf(found: seq<Option<Found>>): map<string, string>
  {
    if found == [] then map[]
    else
      var last := found[|found| - 1];
      var m := IndexOf(found[..|found| - 1]);
      if last.Some? then m[last.value.key := SanitizeFilename(last.value.name)] else m
  }

  /** The last position of `found` accepting a pair with key `key`. */
  function LastFound(found: seq<Option<Found>>, key: string): (r: Option<nat>)
    ensures r.Some? ==> r.value < |found| && found[r.value].Some? && found[r.value].value.key == key
    ensures r.Some? ==> forall i :: r.value < i < |found| ==> !(found[i].Some? && found[i].value.key == key)
    ensures r.None? ==> forall i :: 0 <= i < |found| ==> !(found[i].Some? && found[i].value.key == key)
  {
    if found == [] then None
    else
      var last := found[|found| - 1];
      if last.Some? && last.value.key == key then Some(|found| - 1)
      else LastFound(found[..|found| - 1], key)
  }

  /**
   * The dictionary holds exactly the keys of the accepted pairs, each with the
   * sanitised filename of the last pair carrying it: a repeated key keeps the
   * last filename seen.
   */
  lemma {:induction false} IndexIsLastFound(found: seq<Option<Found>>, key: string)
    ensures key in IndexOf(found) <==> LastFound(found, key).Some?
    ensures key in IndexOf(found) ==>
      IndexOf(found)[key] == SanitizeFilename(found[LastFound(found, key).value].value.name)
  {
    if found != [] {
      IndexIsLastFound(found[..|found| - 1], key);
    }
  }

  /** Every value of the dictionary is a sanitised name, so only `[A-Za-z0-9_.-]` reaches the disk. */
  lemma {:induction false} IndexValuesSafe(found: seq<Option<Found>>, key: string)
    requires key in IndexOf(found)
    ensures AllSafe(IndexOf(found)[key])
  {
    IndexIsLastFound(found, key);
  }

  /** Each accepted pair writes one key, so the dictionary never has more entries than accepted pairs. */
  lemma {:induction false} IndexSize(found: seq<Option<Found>>)
    ensures |IndexOf(found)| <= FoundCount(found)
  {
    if found != [] {
      IndexSize(found[..|found| - 1]);
    }
  }

  /** The number of accepted pairs among `found`. */
  function FoundCount(found: seq<Option<Found>>): (n: nat)
    ensures n <= |found|
  {
    if found == [] then 0
    else FoundCount(found[..|found| - 1]) + if found[|found| - 1].Some? then 1 else 0
  }
}
