/**
 * Turning the `flds` column of the notes into Markdown parts
 * (mcp_server/anki_logic.py:180-214, convert_anki.py:214-266,
 * convert_anki_checklist.py:214-242): the notes are cut into chunks, each
 * chunk becomes one `Anki_Part_{idx}.md`, and each note one question block
 * whose front is the first field and whose answer, folded in a `<details>`
 * element, is the second.
 */
module Notes {
  import opened Wrappers
  import opened Decimal
  import opened ImagePaths

  /** Anki's field separator, U+001F. */
  const FieldSep: char := '\U{1F}'

  /** `flds.split('\x1f')`: the pieces between separators, always at least one. */
  function Split(s: string): (fields: seq<string>)
    ensures |fields| >= 1
    ensures forall k :: 0 <= k < |fields| ==> FieldSep !in fields[k]
  {
    if s == [] then [""]
    else
      var rest := Split(s[1..]);
      if s[0] == FieldSep then [""] + rest
      else [[s[0]] + rest[0]] + rest[1..]
  }

  /** `'\x1f'.join(fields)`. */
  function Join(fields: seq<string>): string
    requires |fields| >= 1
  {
    if |fields| == 1 then fields[0] else fields[0] + [FieldSep] + Join(fields[1..])
  }

  /** Joining the pieces gives back the field text. */
  lemma {:induction false} JoinSplit(s: string)
    ensures Join(Split(s)) == s
  {
    if s != [] {
      var rest := Split(s[1..]);
      JoinSplit(s[1..]);
      if s[0] == FieldSep {
        assert Split(s)[1..] == rest;
      } else if |rest| == 1 {
        assert Split(s) == [[s[0]] + rest[0]];
      } else {
        assert Split(s)[1..] == rest[1..];
        assert Join(rest) == rest[0] + [FieldSep] + Join(rest[1..]);
      }
    }
  }

  /** Splitting separator-free pieces joined by the separator gives back the pieces. */
  lemma {:induction false} SplitJoin(fields: seq<string>)
    requires |fields| >= 1 && forall k :: 0 <= k < |fields| ==> FieldSep !in fields[k]
    ensures Split(Join(fields)) == fields
    decreases |Join(fields)|, |fields[0]|
  {
    var f := fields[0];
    if f == [] {
      if |fields| > 1 {
        var tail := Join(fields[1..]);
        assert Join(fields) == [FieldSep] + tail;
        assert Join(fields)[1..] == tail;
        SplitJoin(fields[1..]);
        assert Split(Join(fields)) == [""] + fields[1..];
      }
    } else {
      var rest := [f[1..]] + fields[1..];
      assert Join(fields) == [f[0]] + Join(rest) by {
        if |fields| == 1 {
          assert Join(fields) == f == [f[0]] + f[1..];
        } else {
          assert Join(rest) == f[1..] + [FieldSep] + Join(fields[1..]);
        }
      }
      assert Join(fields)[1..] == Join(rest);
      assert forall k :: 0 <= k < |rest| ==> FieldSep !in rest[k] by {
        assert forall c :: c in f[1..] ==> c in f;
      }
      SplitJoin(rest);
      assert f[0] != FieldSep;
      assert Split(Join(fields)) == [[f[0]] + rest[0]] + rest[1..];
      assert [f[0]] + f[1..] == f;
      assert rest[1..] == fields[1..];
      assert [f] + fields[1..] == fields;
    }
  }

  /** A note has a second field exactly when its text holds a separator. */
  lemma {:induction false} SplitHasBack(s: string)
    ensures |Split(s)| >= 2 <==> FieldSep in s
  {
    if s != [] {
      SplitHasBack(s[1..]);
      assert FieldSep in s <==> s[0] == FieldSep || FieldSep in s[1..];
    }
  }

  /** The labels a script writes; the three scripts differ only in these. */
  datatype Style = Style(heading: string, checkbox: string, summary: string, noBack: string)

  /** mcp_server/anki_logic.py:198-204. */
  const English := Style("## Question ", "", "\U{1F53D} Show Answer", "*No Back*")

  /**
   * convert_anki.py:231-238. The German labels are written as the file holds
   * them: UTF-8 text read back as Windows-1252, so `ü` appears as `Ã¼` and the
   * arrow as `ðŸ”½`.
   */
  const GermanMisencoded := Style("## Frage ", "", "\U{F0}\U{178}\U{201D}\U{BD} Antwort anzeigen", "*Keine R\U{C3}\U{BC}ckseite*")

  /** convert_anki_checklist.py:229-238: the German labels plus an unticked checkbox per question. */
  const Checklist := Style("## Frage ", "- [ ] Infos anfordern?\n\n", "\U{1F53D} Antwort anzeigen", "*Keine R\U{FC}ckseite*")

  /** The question text: the first field with its image tags rewritten. */
  function Front(flds: string): string
  {
    FixImagePaths(Split(flds)[0])
  }

  /** The answer text: the second field with its image tags rewritten, or the style's placeholder. */
  function Back(style: Style, flds: string): string
  {
    var fields := Split(flds);
    if |fields| >= 2 then FixImagePaths(fields[1]) else style.noBack
  }

  /** The opening of question `q`: its heading and front. */
  function QuestionHead(style: Style, q: nat, flds: string): string
  {
    style.heading + Show(q) + "\n\n" + Front(flds) + "\n\n"
  }

  const DetailsOpen := "<details>"

  /** The inside of the folded answer: the style's summary and the answer, then the closing rule. */
  function AnswerBody(style: Style, flds: string): string
  {
    "<summary>" + style.summary + "</summary>\n\n" + Back(style, flds) + "\n\n</details>\n\n---\n\n"
  }

  /** The Markdown block of note `flds` as question `q`. */
  function NoteBlock(style: Style, q: nat, flds: string): string
  {
    QuestionHead(style, q, flds) + (style.checkbox + (DetailsOpen + AnswerBody(style, flds)))
  }

  /** The placeholder is used exactly for notes without a separator; otherwise the second field is the answer. */
  lemma BackIsSecondField(style: Style, flds: string)
    ensures FieldSep !in flds ==> Back(style, flds) == style.noBack
    ensures FieldSep in flds ==> |Split(flds)| >= 2 && Back(style, flds) == FixImagePaths(Split(flds)[1])
  {
    SplitHasBack(flds);
  }

  /** Fields after the second never reach the document. */
  lemma ExtraFieldsIgnored(style: Style, q: nat, front: string, back: string, extra: string)
    requires FieldSep !in front && FieldSep !in back
    ensures NoteBlock(style, q, front + [FieldSep] + back + [FieldSep] + extra)
         == NoteBlock(style, q, front + [FieldSep] + back)
  {
    var rest := Split(extra);
    var all := [front, back] + rest;
    var two := [front, back];
    assert Join(rest) == extra by { JoinSplit(extra); }
    assert Join(all) == front + [FieldSep] + back + [FieldSep] + extra by {
      assert all[1..] == [back] + rest;
      assert ([back] + rest)[1..] == rest;
    }
    assert Join(two) == front + [FieldSep] + back by {
      assert two[1..] == [back];
    }
    SplitJoin(all);
    SplitJoin(two);
  }

  /** The piece of `a + (b + (c + d))` after `a` and as long as `b + c` is `b + c`. */
  lemma SliceAfter(a: string, b: string, c: string, d: string)
    ensures (a + (b + (c + d)))[|a|..|a| + |b| + |c|] == b + c
  {
    assert (a + (b + (c + d)))[|a|..] == b + (c + d);
    assert b + (c + d) == (b + c) + d;
  }

  /**
   * The style's checkbox line (`- [ ] Infos anfordern?` in the checklist, none
   * elsewhere) sits right after the question text and before the answer's `<details>`.
   */
  lemma CheckboxFollowsFront(style: Style, q: nat, flds: string)
    ensures var head := QuestionHead(style, q, flds);
      var marker := style.checkbox + DetailsOpen;
      NoteBlock(style, q, flds)[|head|..|head| + |marker|] == marker
  {
    SliceAfter(QuestionHead(style, q, flds), style.checkbox, DetailsOpen, AnswerBody(style, flds));
  }

  /** The question blocks of `notes`, numbered from `first`. */
  function Blocks(style: Style, notes: seq<string>, first: nat): string
  {
    if notes == [] then "" else NoteBlock(style, first, notes[0]) + Blocks(style, notes[1..], first + 1)
  }

  /** The numbering runs on across a concatenation of notes. */
  lemma {:induction false} BlocksAppend(style: Style, a: seq<string>, b: seq<string>, first: nat)
    ensures Blocks(style, a + b, first) == Blocks(style, a, first) + Blocks(style, b, first + |a|)
  {
    if a == [] {
      assert a + b == b;
    } else {
      assert (a + b)[0] == a[0] && (a + b)[1..] == a[1..] + b;
      BlocksAppend(style, a[1..], b, first + 1);
    }
  }

  /** `f"# Anki Export Part {idx}\n\n"`. */
  function PartHeader(idx: nat): string
  {
    "# Anki Export Part " + Show(idx) + "\n\n"
  }

  /** The content of part `idx` holding `chunk`: questions numbered from 1. */
  function PartDocument(style: Style, idx: nat, chunk: seq<string>): string
  {
    PartHeader(idx) + Blocks(style, chunk, 1)
  }

  /** `f"Anki_Part_{idx}.md"`. */
  function PartName(idx: nat): string
  {
    "Anki_Part_" + Show(idx) + ".md"
  }

  /** Note `k` of a chunk is question `k + 1` of its part, preceded by the notes before it. */
  lemma QuestionNumbering(style: Style, idx: nat, chunk: seq<string>, k: nat)
    requires k < |chunk|
    ensures PartDocument(style, idx, chunk)
      == PartHeader(idx) + Blocks(style, chunk[..k], 1) + NoteBlock(style, k + 1, chunk[k]) + Blocks(style, chunk[k + 1..], k + 2)
  {
    var pre, post := chunk[..k], chunk[k + 1..];
    assert chunk == pre + ([chunk[k]] + post);
    BlocksAppend(style, pre, [chunk[k]] + post, 1);
    BlocksCons(style, chunk[k], post, 1 + k);
    Regroup(PartHeader(idx), Blocks(style, pre, 1), NoteBlock(style, k + 1, chunk[k]), Blocks(style, post, k + 2));
  }

  /** The block of a leading note comes first, the others are numbered after it. */
  lemma BlocksCons(style: Style, x: string, notes: seq<string>, first: nat)
    ensures Blocks(style, [x] + notes, first) == NoteBlock(style, first, x) + Blocks(style, notes, first + 1)
  {
    assert ([x] + notes)[1..] == notes;
  }

  lemma Regroup(a: string, b: string, c: string, d: string)
    ensures a + (b + (c + d)) == a + b + c + d
  {
    assert b + (c + d) == b + c + d;
  }

  /** One more note appended to a part's text gives the text of the longer prefix. */
  lemma RenderStep(style: Style, idx: nat, chunk: seq<string>, q: nat)
    requires q < |chunk|
    ensures PartHeader(idx) + Blocks(style, chunk[..q], 1) + NoteBlock(style, q + 1, chunk[q])
         == PartHeader(idx) + Blocks(style, chunk[..q + 1], 1)
  {
    assert chunk[..q + 1] == chunk[..q] + [chunk[q]];
    BlocksSnoc(style, chunk[..q], chunk[q], 1);
  }

  /** Appending one note appends its block, numbered after the others. */
  lemma BlocksSnoc(style: Style, notes: seq<string>, x: string, first: nat)
    ensures Blocks(style, notes + [x], first) == Blocks(style, notes, first) + NoteBlock(style, first + |notes|, x)
  {
    BlocksAppend(style, notes, [x], first);
    assert [x][1..] == [];
    assert Blocks(style, [x], first + |notes|) == NoteBlock(style, first + |notes|, x) + "";
  }

  /** Different parts get different file names, so no part overwrites another. */
  lemma PartNamesDistinct(i: nat, j: nat)
    requires i != j
    ensures PartName(i) != PartName(j)
  {
    if PartName(i) == PartName(j) {
      var a, b := Show(i), Show(j);
      assert PartName(i) == ("Anki_Part_" + a) + ".md";
      assert a == PartName(i)[10..|PartName(i)| - 3];
      assert b == PartName(j)[10..|PartName(j)| - 3];
      ShowInjective(i, j);
    }
  }

  /** `[notes[i:i + size] for i in range(0, len(notes), size)]` for a positive size. */
  function ChunksOf<T>(notes: seq<T>, size: nat): (chunks: seq<seq<T>>)
    requires size > 0
    ensures forall c :: 0 <= c < |chunks| ==> 0 < |chunks[c]| <= size
    ensures forall c :: 0 <= c < |chunks| - 1 ==> |chunks[c]| == size
    decreases |notes|
  {
    if notes == [] then []
    else if |notes| <= size then [notes]
    else [notes[..size]] + ChunksOf(notes[size..], size)
  }

  /** The chunks in order, joined together. */
  function Concat<T>(chunks: seq<seq<T>>): seq<T>
  {
    if chunks == [] then [] else chunks[0] + Concat(chunks[1..])
  }

  /** Chunking loses, adds and reorders nothing. */
  lemma {:induction false} ChunksConcat<T>(notes: seq<T>, size: nat)
    requires size > 0
    ensures Concat(ChunksOf(notes, size)) == notes
    decreases |notes|
  {
    if notes != [] && |notes| > size {
      ChunksConcat(notes[size..], size);
      assert ChunksOf(notes, size)[1..] == ChunksOf(notes[size..], size);
      assert notes == notes[..size] + notes[size..];
    } else if notes != [] {
      assert ChunksOf(notes, size)[1..] == [];
    }
  }

  /** There are just enough chunks: the fewest `k` with `k * size >= |notes|`. */
  lemma {:induction false} ChunkCount<T>(notes: seq<T>, size: nat)
    requires size > 0
    ensures var k := |ChunksOf(notes, size)|;
      |notes| <= k * size && (k == 0 || (k - 1) * size < |notes|)
    decreases |notes|
  {
    if |notes| > size {
      var k := |ChunksOf(notes[size..], size)|;
      ChunkCount(notes[size..], size);
      assert |ChunksOf(notes, size)| == k + 1;
      assert (k + 1) * size == k * size + size;
    }
  }

  /** Item `k` of chunk `c` is note `c * size + k`. */
  lemma {:induction false} ChunkItem<T>(notes: seq<T>, size: nat, c: nat, k: nat)
    requires size > 0 && k < size && c * size + k < |notes|
    ensures c < |ChunksOf(notes, size)| && k < |ChunksOf(notes, size)[c]|
    ensures ChunksOf(notes, size)[c][k] == notes[c * size + k]
    decreases c
  {
    if c > 0 {
      MulPred(c, size);
      ChunksCons(notes, size);
      ChunkItem(notes[size..], size, c - 1, k);
    } else {
      assert c * size == 0;
    }
  }

  /** `c * size` is `size` more than `(c - 1) * size`. */
  lemma MulPred(c: nat, size: nat)
    requires c > 0
    ensures c * size == (c - 1) * size + size && (c - 1) * size >= 0
  {
  }

  /** More than one chunk's worth of notes: the first chunk is split off the front. */
  lemma ChunksCons<T>(notes: seq<T>, size: nat)
    requires 0 < size < |notes|
    ensures ChunksOf(notes, size) == [notes[..size]] + ChunksOf(notes[size..], size)
  {
  }

  /** Note `i` is item `i % size` of chunk `i / size`. */
  lemma ChunkPosition<T>(notes: seq<T>, size: nat, i: nat)
    requires size > 0 && i < |notes|
    ensures i / size < |ChunksOf(notes, size)|
    ensures i % size < |ChunksOf(notes, size)[i / size]|
    ensures ChunksOf(notes, size)[i / size][i % size] == notes[i]
  {
    assert i == (i / size) * size + i % size;
    ChunkItem(notes, size, i / size, i % size);
  }

  /**
   * The chunk list for `chunk_size`: Python's `range` raises `ValueError`
   * for a step of zero, and a negative step gives no chunks at all.
   */
  function Chunks<T>(notes: seq<T>, size: int): (r: Option<seq<seq<T>>>)
    ensures r.None? <==> size == 0
    ensures size < 0 ==> r == Some([])
    ensures size > 0 ==> r == Some(ChunksOf(notes, size))
  {
    if size == 0 then None else if size < 0 then Some([]) else Some(ChunksOf(notes, size))
  }

  /** One written file: its name and content. */
  datatype File = File(name: string, content: string)

  /** The files written for `chunks`, numbered from `first`. */
  function Parts(style: Style, chunks: seq<seq<string>>, first: nat): (files: seq<File>)
    ensures |files| == |chunks|
    ensures forall c :: 0 <= c < |chunks| ==>
      files[c] == File(PartName(first + c), PartDocument(style, first + c, chunks[c]))
  {
    if chunks == [] then [] else [File(PartName(first), PartDocument(style, first, chunks[0]))] + Parts(style, chunks[1..], first + 1)
  }

  /** Rendering one part: the header, then the questions appended one by one. */
  method RenderPart(style: Style, idx: nat, chunk: seq<string>) returns (md: string)
    ensures md == PartDocument(style, idx, chunk)
  {
    md := PartHeader(idx);
    for q := 0 to |chunk|
      invariant md == PartHeader(idx) + Blocks(style, chunk[..q], 1)
    {
      RenderStep(style, idx, chunk, q);
      md := md + NoteBlock(style, q + 1, chunk[q]);
    }
    assert chunk[..|chunk|] == chunk;
  }

  /** `for idx, chunk in enumerate(chunks, 1)`: one file per chunk. */
  method WriteParts(style: Style, chunks: seq<seq<string>>) returns (files: seq<File>)
    ensures files == Parts(style, chunks, 1)
  {
    files := [];
    for c := 0 to |chunks|
      invariant |files| == c
      invariant forall k :: 0 <= k < c ==> files[k] == File(PartName(1 + k), PartDocument(style, 1 + k, chunks[k]))
    {
      var md := RenderPart(style, c + 1, chunks[c]);
      files := files + [File(PartName(c + 1), md)];
    }
  }

  /** The message Python's `range` raises for a zero step. */
  const ZeroStep := "range() arg 3 must not be zero"

  /**
   * `convert_deck` from the fetched notes on (mcp_server/anki_logic.py:180-214):
   * the files written and the log lines added.
   */
  method ConvertNotes(notes: seq<string>, chunkSize: int) returns (files: seq<File>, log: seq<string>)
    ensures chunkSize == 0 ==> files == [] && log == ["Found " + Show(|notes|) + " notes.", "Database error: " + ZeroStep]
    ensures chunkSize != 0 ==> var chunks := Chunks(notes, chunkSize).value;
      && files == Parts(English, chunks, 1)
      && log == ["Found " + Show(|notes|) + " notes.", "Created " + Show(|chunks|) + " MD files."]
  {
    log := ["Found " + Show(|notes|) + " notes."];
    var chunks := Chunks(notes, chunkSize);
    if chunks.None? {
      files := [];
      log := log + ["Database error: " + ZeroStep];
      return;
    }
    files := WriteParts(English, chunks.value);
    log := log + ["Created " + Show(|files|) + " MD files."];
  }

  /** The two scripts: chunks of 50 in their own style (convert_anki.py:214-242, convert_anki_checklist.py:214-242). */
  method ScriptParts(style: Style, notes: seq<string>) returns (files: seq<File>)
    ensures files == Parts(style, ChunksOf(notes, 50), 1)
  {
    files := WriteParts(style, ChunksOf(notes, 50));
  }

  /** Every note lands in exactly one file, as the question numbered by its place in its chunk. */
  lemma NoteInPart(style: Style, notes: seq<string>, size: nat, i: nat)
    requires size > 0 && i < |notes|
    ensures i / size < |ChunksOf(notes, size)| && i % size < |ChunksOf(notes, size)[i / size]|
    ensures var files := Parts(style, ChunksOf(notes, size), 1);
      var c := i / size;
      var chunk := ChunksOf(notes, size)[c];
      && c < |files|
      && files[c].name == PartName(c + 1)
      && files[c].content == PartHeader(c + 1) + Blocks(style, chunk[..i % size], 1)
           + NoteBlock(style, i % size + 1, notes[i]) + Blocks(style, chunk[i % size + 1..], i % size + 2)
  {
    ChunkPosition(notes, size, i);
    var chunks := ChunksOf(notes, size);
    var c := i / size;
    PartAt(style, chunks, c);
    QuestionNumbering(style, c + 1, chunks[c], i % size);
  }

  /** The file for chunk `c` is part `c + 1`. */
  lemma PartAt(style: Style, chunks: seq<seq<string>>, c: nat)
    requires c < |chunks|
    ensures c < |Parts(style, chunks, 1)|
    ensures Parts(style, chunks, 1)[c].name == PartName(c + 1)
    ensures Parts(style, chunks, 1)[c].content == PartDocument(style, c + 1, chunks[c])
  {
    assert 1 + c == c + 1;
  }
}
