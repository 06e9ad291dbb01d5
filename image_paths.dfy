/**
 * `fix_image_paths` (mcp_server/anki_logic.py:14-20, convert_anki.py:226-237,
 * convert_anki_checklist.py:200-211): `re.sub(r'<img src="([^"]+)">', repl, text)`
 * where `repl` turns the captured source X into `![image](Anki_Images/` +
 * sanitize(X) + `)`. The substitution scans left to right and never
 * rescans what it has replaced.
 */
module ImagePaths {
  import opened Wrappers
  import opened Sanitize

  const TagOpen: string := "<img src=\""
  const TagClose: string := "\">"
  const ImageDir: string := "Anki_Images/"

  /** The exact tag the pattern matches for source `x`. */
  function Tag(x: string): string { TagOpen + x + TagClose }

  /** The Markdown image link that replaces the tag for source `x`. */
  function ImageLink(x: string): string { "![image](" + ImageDir + SanitizeFilename(x) + ")" }

  predicate QuoteFree(x: string) { forall i :: 0 <= i < |x| ==> x[i] != '"' }

  /** Length of the longest prefix of `s` without `"`: what greedy `[^"]+` consumes. */
  function QuoteFreeRun(s: string): (k: nat)
    ensures k <= |s|
    ensures QuoteFree(s[..k])
    ensures k < |s| ==> s[k] == '"'
  {
    if s == [] || s[0] == '"' then 0 else 1 + QuoteFreeRun(s[1..])
  }

  /** The regex match attempted at the head of `t`: `Some(X)` when `t` starts with `<img src="X">`. */
  function TagAt(t: string): (r: Option<string>)
    ensures r.Some? ==> |r.value| >= 1 && QuoteFree(r.value) && |Tag(r.value)| <= |t| && t[..|Tag(r.value)|] == Tag(r.value)
  {
    if |t| >= |TagOpen| && t[..|TagOpen|] == TagOpen then
      var rest := t[|TagOpen|..];
      var k := QuoteFreeRun(rest);
      if 1 <= k && k + 2 <= |rest| && rest[k + 1] == '>' then
        assert t[..|TagOpen| + k + 2] == TagOpen + rest[..k] + TagClose;
        Some(rest[..k])
      else None
    else None
  }

  /** `fix_image_paths(text)`. */
  function FixImagePaths(text: string): string
    decreases |text|
  {
    if text == [] then []
    else match TagAt(text)
      case Some(x) => ImageLink(x) + FixImagePaths(text[|Tag(x)|..])
      case None => [text[0]] + FixImagePaths(text[1..])
  }

  /** The pattern matches every exact tag: `TagAt` is the recogniser of `Tag`. */
  lemma TagAtTag(x: string, rest: string)
    requires |x| >= 1 && QuoteFree(x)
    ensures TagAt(Tag(x) + rest) == Some(x)
  {
    var t := Tag(x) + rest;
    assert t[..|TagOpen|] == TagOpen;
    var r := t[|TagOpen|..];
    assert r == x + (TagClose + rest);
    QuoteFreeRunStops(x, TagClose + rest);
    assert r[..|x|] == x;
    assert r[|x| + 1] == TagClose[1] == '>';
  }

  lemma {:induction false} QuoteFreeRunStops(x: string, tail: string)
    requires QuoteFree(x) && tail != [] && tail[0] == '"'
    ensures QuoteFreeRun(x + tail) == |x|
  {
    if x == [] {
      assert x + tail == tail;
    } else {
      assert (x + tail)[1..] == x[1..] + tail;
      QuoteFreeRunStops(x[1..], tail);
    }
  }

  /** Each exact tag `<img src="X">` becomes `![image](Anki_Images/sanitize(X))`. */
  lemma FixTag(x: string, rest: string)
    requires |x| >= 1 && QuoteFree(x)
    ensures FixImagePaths(Tag(x) + rest) == ImageLink(x) + FixImagePaths(rest)
  {
    TagAtTag(x, rest);
    assert (Tag(x) + rest)[|Tag(x)|..] == rest;
  }

  /** No match starts anywhere in `t`. */
  predicate NoTag(t: string)
  {
    forall i :: 0 <= i < |t| ==> TagAt(t[i..]).None?
  }

  /** Text in which no match starts is passed through, and a prefix of it is copied verbatim. */
  lemma {:induction false} FixNoTagPrefix(a: string, b: string)
    requires forall i :: 0 <= i < |a| ==> TagAt((a + b)[i..]).None?
    ensures FixImagePaths(a + b) == a + FixImagePaths(b)
    decreases |a|
  {
    if a == [] {
      assert a + b == b;
    } else {
      NoTagShift(a, b);
      PassChar(a[0], a[1..] + b);
      FixNoTagPrefix(a[1..], b);
      assert [a[0]] + (a[1..] + FixImagePaths(b)) == a + FixImagePaths(b);
    }
  }

  /** Dropping the first character of a match-free prefix leaves a match-free prefix. */
  lemma NoTagShift(a: string, b: string)
    requires |a| >= 1 && forall i :: 0 <= i < |a| ==> TagAt((a + b)[i..]).None?
    ensures a + b == [a[0]] + (a[1..] + b) && TagAt([a[0]] + (a[1..] + b)).None?
    ensures forall i :: 0 <= i < |a[1..]| ==> TagAt((a[1..] + b)[i..]).None?
  {
    var t := a[1..] + b;
    assert TagAt((a + b)[0..]).None?;
    assert (a + b)[0..] == a + b == [a[0]] + t;
    forall i | 0 <= i < |a[1..]|
      ensures TagAt(t[i..]).None?
    {
      assert t[i..] == (a + b)[i + 1..];
    }
  }

  /** A character at which no match starts is copied and the rewrite goes on after it. */
  lemma PassChar(c: char, t: string)
    requires TagAt([c] + t).None?
    ensures FixImagePaths([c] + t) == [c] + FixImagePaths(t)
  {
    assert ([c] + t)[1..] == t;
  }

  /** The rewrite leaves a text unchanged exactly when it contains no tag the pattern matches. */
  lemma FixUnchangedIff(t: string)
    ensures FixImagePaths(t) == t <==> NoTag(t)
  {
    if NoTag(t) {
      assert t + [] == t;
      FixNoTagPrefix(t, []);
    } else {
      var i :| 0 <= i < |t| && TagAt(t[i..]).Some?;
      FirstTag(t, i);
    }
  }

  /** A text with a match is changed: at the first match a `<` becomes a `!`. */
  lemma FirstTag(t: string, i: nat)
    requires i < |t| && TagAt(t[i..]).Some?
    ensures FixImagePaths(t) != t
    decreases i
  {
    if j :| 0 <= j < i && TagAt(t[j..]).Some? {
      FirstTag(t, j);
    } else {
      FixAtFirstTag(t, i);
    }
  }

  lemma FixAtFirstTag(t: string, i: nat)
    requires i < |t| && TagAt(t[i..]).Some?
    requires forall j :: 0 <= j < i ==> TagAt(t[j..]).None?
    ensures |FixImagePaths(t)| > i && FixImagePaths(t)[i] == '!' && t[i] == '<'
  {
    var a, b := t[..i], t[i..];
    assert t == a + b;
    forall k | 0 <= k < |a| ensures TagAt((a + b)[k..]).None? {
      assert (a + b)[k..] == t[k..];
    }
    FixNoTagPrefix(a, b);
    var x := TagAt(b).value;
    var link := ImageLink(x);
    assert FixImagePaths(b) == link + FixImagePaths(b[|Tag(x)|..]);
    assert link[0] == '!';
    assert FixImagePaths(b)[0] == '!';
    assert b[..|Tag(x)|][0] == Tag(x)[0] == '<';
  }

  /** Only a text starting with `<` can start a match. */
  lemma NoOpenNoTag(s: string)
    requires |s| >= 1 && s[0] != '<'
    ensures TagAt(s).None?
  {
    if |s| >= |TagOpen| {
      assert s[..|TagOpen|][0] == s[0];
    }
  }

  /** A text with no `<` after its first character can match only at its head. */
  lemma MatchOnlyAtHead(t: string)
    requires forall i :: 0 < i < |t| ==> t[i] != '<'
    ensures forall i :: 0 < i < |t| ==> TagAt(t[i..]).None?
  {
    forall i | 0 < i < |t| ensures TagAt(t[i..]).None? {
      assert t[i..][0] == t[i];
      NoOpenNoTag(t[i..]);
    }
  }

  /** A quote that is not followed by `>` ends the match attempt at the head. */
  lemma QuoteWithoutClose(x: string, tail: string)
    requires QuoteFree(x) && |tail| >= 2 && tail[0] == '"' && tail[1] != '>'
    ensures TagAt(TagOpen + x + tail).None?
  {
    var t := TagOpen + x + tail;
    assert t[..|TagOpen|] == TagOpen;
    assert t[|TagOpen|..] == x + tail;
    QuoteFreeRunStops(x, tail);
    assert (x + tail)[|x| + 1] == tail[1];
  }

  /** A tag with further attributes after the source is not matched and stays as it is. */
  lemma ExtraAttributesKept(x: string, attrs: string)
    requires QuoteFree(x) && '<' !in x && '<' !in attrs
    ensures var t := TagOpen + x + ("\" " + attrs + ">"); FixImagePaths(t) == t
  {
    var tail := "\" " + attrs + ">";
    var t := TagOpen + x + tail;
    QuoteWithoutClose(x, tail);
    forall i | 0 < i < |t| ensures t[i] != '<' {
      if i < |TagOpen| {
        assert t[i] == TagOpen[i];
      } else if i < |TagOpen| + |x| {
        assert t[i] == x[i - |TagOpen|];
      } else {
        var j := i - |TagOpen| - |x|;
        assert t[i] == tail[j];
        assert j == 0 || j == 1 || j == |tail| - 1 || tail[j] == attrs[j - 2];
      }
    }
    MatchOnlyAtHead(t);
    assert NoTag(t) by {
      assert t[0..] == t;
    }
    FixUnchangedIff(t);
  }
}
