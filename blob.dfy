/**
 * The pure decisions of blob normalisation (mcp_server/anki_logic.py:100-133,
 * convert_anki.py:132-181, convert_anki_checklist.py:127-158): whether a blob
 * is a zstd frame, and which image format its target name asks for.
 * Decompression, decoding and re-encoding themselves are left to the
 * libraries and are not modelled.
 */
module Blob {
  import opened Utf8

  /** The Zstandard frame magic number 0xFD2FB528, little-endian (section 3.1.1 of RFC 8878). */
  const ZstdMagic: seq<Byte> := [0x28, 0xB5, 0x2F, 0xFD]

  /** `f_chk.read(4) == b'\x28\xb5\x2f\xfd'`: a blob shorter than four bytes reads short and never matches. */
  predicate IsZstd(blob: seq<Byte>)
  {
    |blob| >= 4 && blob[..4] == ZstdMagic
  }

  /** A blob is treated as zstd exactly when it starts with the magic number. */
  lemma IsZstdIff(blob: seq<Byte>)
    ensures IsZstd(blob) <==> exists rest :: blob == ZstdMagic + rest
  {
    if IsZstd(blob) {
      assert blob == ZstdMagic + blob[4..];
    }
    if exists rest :: blob == ZstdMagic + rest {
      var rest :| blob == ZstdMagic + rest;
      assert blob[..4] == ZstdMagic;
    }
  }

  datatype ImageFormat = Png | Jpeg

  /** What happens to the decoded image: saved again in a format, or the file moved as it is. */
  datatype Target = Reencode(format: ImageFormat) | MoveAsIs

  /** `s.lower()` on ASCII letters; every other character is kept. */
  function Lower(s: string): (r: string)
    ensures |r| == |s|
    ensures forall i :: 0 <= i < |s| ==> r[i] == (if 'A' <= s[i] <= 'Z' then (s[i] as int + 32) as char else s[i])
  {
    if s == [] then [] else [if 'A' <= s[0] <= 'Z' then (s[0] as int + 32) as char else s[0]] + Lower(s[1..])
  }

  /** Lower-casing works character by character. */
  lemma {:induction false} LowerAppend(a: string, b: string)
    ensures Lower(a + b) == Lower(a) + Lower(b)
  {
    if a == [] {
      assert a + b == b;
    } else {
      assert (a + b)[1..] == a[1..] + b;
      LowerAppend(a[1..], b);
    }
  }

  predicate EndsWith(s: string, suffix: string)
  {
    |suffix| <= |s| && s[|s| - |suffix|..] == suffix
  }

  /** The format chosen from the target name's extension, case-insensitively. */
  function TargetFor(name: string): (t: Target)
    ensures t == Reencode(Png) <==> EndsWith(Lower(name), ".png")
    ensures t == Reencode(Jpeg) <==> !EndsWith(Lower(name), ".png") && (EndsWith(Lower(name), ".jpg") || EndsWith(Lower(name), ".jpeg"))
    ensures t == MoveAsIs <==> !EndsWith(Lower(name), ".png") && !EndsWith(Lower(name), ".jpg") && !EndsWith(Lower(name), ".jpeg")
  {
    var l := Lower(name);
    if EndsWith(l, ".png") then Reencode(Png)
    else if EndsWith(l, ".jpg") || EndsWith(l, ".jpeg") then Reencode(Jpeg)
    else MoveAsIs
  }

  /** The colour mode the image is saved in: RGBA and palette images become RGB for JPEG. */
  function SaveMode(target: Target, mode: string): (m: string)
    ensures target == Reencode(Jpeg) ==> m != "RGBA" && m != "P"
    ensures target != Reencode(Jpeg) || (mode != "RGBA" && mode != "P") ==> m == mode
  {
    if target == Reencode(Jpeg) && (mode == "RGBA" || mode == "P") then "RGB" else mode
  }

  /** One planned copy: which disk file feeds which image, decompressed or not, saved how. */
  datatype Copy = Copy(source: string, dest: string, decompress: bool, target: Target)

  /** The decisions taken for copying blob `blob` (file `source`) to image `dest`. */
  function PlanCopy(source: string, dest: string, blob: seq<Byte>): (c: Copy)
    ensures c.source == source && c.dest == dest
    ensures c.decompress <==> IsZstd(blob)
    ensures c.target == TargetFor(dest)
  {
    Copy(source, dest, IsZstd(blob), TargetFor(dest))
  }
}
