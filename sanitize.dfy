/**
 * `sanitize_filename` (mcp_server/anki_logic.py:9-12, convert_anki.py:19-23,
 * convert_anki_checklist.py:19-23): every space becomes `_`, then every
 * character outside `[A-Za-z0-9_.-]` is deleted.
 */
module Sanitize {

  /** The character class `[a-zA-Z0-9_.-]` (ASCII ranges only, as in the pattern). */
  predicate IsSafe(c: char)
  {
    ('a' <= c <= 'z') || ('A' <= c <= 'Z') || ('0' <= c <= '9') || c == '_' || c == '.' || c == '-'
  }

  predicate AllSafe(s: string)
  {
    forall i :: 0 <= i < |s| ==> IsSafe(s[i])
  }

  /** `name.replace(" ", "_")`. */
  function ReplaceSpaces(s: string): (r: string)
    ensures |r| == |s|
    ensures forall i :: 0 <= i < |s| ==> r[i] == (if s[i] == ' ' then '_' else s[i])
  {
    if s == [] then [] else [if s[0] == ' ' then '_' else s[0]] + ReplaceSpaces(s[1..])
  }

  /** `re.sub(r'[^a-zA-Z0-9_.-]', '', s)`: delete every unsafe character. */
  function StripUnsafe(s: string): (r: string)
    ensures |r| <= |s|
    ensures AllSafe(r)
    ensures AllSafe(s) ==> r == s
  {
    if s == [] then [] else (if IsSafe(s[0]) then [s[0]] else []) + StripUnsafe(s[1..])
  }

  /** `sanitize_filename(name)`. */
  function SanitizeFilename(name: string): (r: string)
    ensures AllSafe(r)
    ensures |r| <= |name|
  {
    StripUnsafe(ReplaceSpaces(name))
  }

  /** One character: a safe one is kept, any other deleted. */
  lemma StripOne(c: char)
    ensures StripUnsafe([c]) == if IsSafe(c) then [c] else []
  {
    assert [c][1..] == [];
  }

  /** One character: a space becomes `_`, another safe one is kept, any other deleted. */
  lemma SanitizeOne(c: char)
    ensures SanitizeFilename([c]) == if c == ' ' then "_" else if IsSafe(c) then [c] else []
  {
    StripOne(if c == ' ' then '_' else c);
  }

  /**
   * Deletion keeps every safe character as often as it occurs and no unsafe
   * one: the result holds each character `c` as many times as `s` does when
   * `c` is safe, and never otherwise.
   */
  lemma {:induction false} StripCounts(s: string, c: char)
    ensures multiset(StripUnsafe(s))[c] == if IsSafe(c) then multiset(s)[c] else 0
  {
    if s != [] {
      StripCounts(s[1..], c);
      assert s == [s[0]] + s[1..];
      assert multiset(s) == multiset([s[0]]) + multiset(s[1..]);
      var head := if IsSafe(s[0]) then [s[0]] else [];
      assert StripUnsafe(s) == head + StripUnsafe(s[1..]);
      assert multiset(StripUnsafe(s)) == multiset(head) + multiset(StripUnsafe(s[1..]));
    }
  }

  /** Sanitising is idempotent: a sanitised name is left alone. */
  lemma SanitizeIdempotent(name: string)
    ensures SanitizeFilename(SanitizeFilename(name)) == SanitizeFilename(name)
  {
    var r := SanitizeFilename(name);
    assert ReplaceSpaces(r) == r;
  }

  /** The names sanitising leaves unchanged are exactly the all-safe ones. */
  lemma SanitizeFixedPoints(name: string)
    ensures SanitizeFilename(name) == name <==> AllSafe(name)
  {
    if AllSafe(name) {
      assert ReplaceSpaces(name) == name;
    }
  }

  lemma {:induction false} StripAppend(a: string, b: string)
    ensures StripUnsafe(a + b) == StripUnsafe(a) + StripUnsafe(b)
  {
    if a == [] {
      assert a + b == b;
    } else {
      assert (a + b)[0] == a[0] && (a + b)[1..] == a[1..] + b;
      StripAppend(a[1..], b);
      var head := if IsSafe(a[0]) then [a[0]] else [];
      assert StripUnsafe(a + b) == head + (StripUnsafe(a[1..]) + StripUnsafe(b));
      assert head + (StripUnsafe(a[1..]) + StripUnsafe(b)) == (head + StripUnsafe(a[1..])) + StripUnsafe(b);
    }
  }

  /** Sanitising works character by character, so it distributes over concatenation. */
  lemma SanitizeAppend(a: string, b: string)
    ensures SanitizeFilename(a + b) == SanitizeFilename(a) + SanitizeFilename(b)
  {
    var ra, rb := ReplaceSpaces(a), ReplaceSpaces(b);
    assert ReplaceSpaces(a + b) == ra + rb by {
      forall i | 0 <= i < |a + b|
        ensures ReplaceSpaces(a + b)[i] == (ra + rb)[i]
      {
        if i < |a| {
          assert (a + b)[i] == a[i];
        } else {
          assert (a + b)[i] == b[i - |a|];
        }
      }
    }
    StripAppend(ra, rb);
  }
}
