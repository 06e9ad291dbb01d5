/**
 * Worked cases of the media phase, on concrete inputs.
 */
module Scenarios {
  import opened Wrappers
  import opened Utf8
  import opened Recovery
  import opened KeyResolver
  import opened DelimitedScan
  import BackwardScan
  import opened Sanitize

  /** `b"\nabc123\n" + bytes([length]) + b"myfile.png"`. */
  function Entry(length: Byte): seq<Byte>
  {
    [10, 97, 98, 99, 49, 50, 51, 10, length] + NameBytes
  }

  /** `b"myfile.png"`. */
  const NameBytes: seq<Byte> := [109, 121, 102, 105, 108, 101, 46, 112, 110, 103]

  /** A shifted key whose digit file exists resolves to that file: `"!"` is read from `1`. */
  lemma ShiftedKeyResolves()
    ensures ResolveSource("!", {"1"}) == "1"
  {
    assert "!" in ShiftMap && ShiftMap["!"] == "1";
  }

  /**
   * The length byte is trusted as it is: 9 before the ten bytes `myfile.png`
   * makes the record read at the first newline map `abc123` to `myfile.pn` (and
   * `RecordAtComplete` makes it the record the scan reads there).
   */
  lemma LengthNineTruncates(data: seq<Byte>)
    requires data == Entry(9)
    ensures ValidRecord(data, 0, 7, Found("abc123", "myfile.pn"))
  {
    EntryKey(data);
    EntryName(data, 9);
    AsciiText(NameBytes[..9], "myfile.pn");
    assert "myfile.pn"[6] == '.';
    RecordOfParts(data, 7, "abc123", "myfile.pn");
  }

  /** With the right length byte 10, which is itself a newline byte, the record holds the whole name. */
  lemma LengthTenRecordsWholeName(data: seq<Byte>)
    requires data == Entry(10)
    ensures ValidRecord(data, 0, 7, Found("abc123", "myfile.png"))
  {
    EntryKey(data);
    EntryName(data, 10);
    AsciiText(NameBytes[..10], "myfile.png");
    assert "myfile.png"[6] == '.';
    RecordOfParts(data, 7, "abc123", "myfile.png");
  }

  /** Whatever the length byte, the entry's key `abc123` sits between the newlines at 0 and 7. */
  lemma EntryKey(data: seq<Byte>)
    requires exists length :: data == Entry(length)
    ensures |data| == 19 && data[0] == NewLine && data[7] == NewLine
    ensures forall c :: 0 < c < 7 ==> data[c] != NewLine
    ensures Decode(data[1..7]) == Some("abc123")
  {
    var key := data[1..7];
    assert key == [97, 98, 99, 49, 50, 51];
    AsciiText(key, "abc123");
    assert forall c :: 0 < c < 7 ==> data[c] == key[c - 1];
  }

  /** The filename bytes follow the length byte. */
  lemma EntryName(data: seq<Byte>, length: Byte)
    requires data == Entry(length) && length <= |NameBytes|
    ensures data[8] == length && data[9..9 + length] == NameBytes[..length]
  {
    assert data[9..] == NameBytes;
  }

  /** A buffer laid out as newline, key, newline, length, name bytes holds a record at its start. */
  lemma RecordOfParts(data: seq<Byte>, j: nat, k: string, name: string)
    requires 0 < j < KeyWindow && j + 2 <= |data|
    requires data[0] == NewLine && data[j] == NewLine
    requires forall i :: 0 < i < j ==> data[i] != NewLine
    requires Decode(data[1..j]) == Some(k)
    requires j + 2 + data[j + 1] <= |data| && Decode(data[j + 2..j + 2 + data[j + 1]]) == Some(name)
    requires '.' in name
    ensures ValidRecord(data, 0, j, Found(k, name))
  {
  }

  /**
   * A hit whose key is not truthy does not end the backward search. In
   * `b"\nK\n\x06\x05a.png"` with a file `K` listed, distance 5 reads `a.png`
   * but no newline precedes its length byte, so the search goes on to distance
   * 6, whose filename is `"\x05a.png"` after the key line `K`; sanitising
   * makes it `a.png`.
   */
  lemma FalsyKeyHitSkipped(data: seq<Byte>)
    requires data == [10, 75, 10, 6, 5, 97, 46, 112, 110, 103]
    ensures BackwardScan.Candidate(data, 10, {"K"}) == Some(Found("K", [5 as char] + "a.png"))
    ensures SanitizeFilename([5 as char] + "a.png") == "a.png"
  {
    HitWithoutKey(data);
    BackwardScan.SearchSkips(data, 10, {"K"}, 5);
    HitWithKey(data);
    BackwardScan.SearchEndsAt(data, 10, {"K"}, 6);
    ControlCharStripped();
  }

  /** Sanitising drops the control character in front of `a.png`. */
  lemma ControlCharStripped()
    ensures SanitizeFilename([5 as char] + "a.png") == "a.png"
  {
    assert SanitizeFilename([5 as char] + "a.png") == StripUnsafe([5 as char] + "a.png");
  }

  /** Distance 5 of that buffer is a hit, but its length byte follows no newline. */
  lemma HitWithoutKey(data: seq<Byte>)
    requires data == [10, 75, 10, 6, 5, 97, 46, 112, 110, 103]
    ensures BackwardScan.HitAt(data, 10, 5) == Some("a.png")
    ensures BackwardScan.ValidKey(data, 4, {"K"}) == None
  {
    AsciiText(data[5..10], "a.png");
  }

  /** Distance 6 of that buffer is a hit whose length byte follows the key line `K`. */
  lemma HitWithKey(data: seq<Byte>)
    requires data == [10, 75, 10, 6, 5, 97, 46, 112, 110, 103]
    ensures BackwardScan.HitAt(data, 10, 6) == Some([5 as char] + "a.png")
    ensures BackwardScan.ValidKey(data, 3, {"K"}) == Some("K")
  {
    AsciiText(data[4..10], [5 as char] + "a.png");
    assert BackwardScan.KeyStart(data, 2) == 1;
    assert BackwardScan.PySlice(data, 1, 2) == [75];
    assert AsciiDecode([75]).value == "K";
    assert BackwardScan.LineKey(data, 2, {"K"}) == Some("K");
  }

  /** ASCII bytes decode, as UTF-8, to the characters with the same codes. */
  lemma AsciiText(b: seq<Byte>, s: string)
    requires |b| == |s| && forall i :: 0 <= i < |b| ==> b[i] < 0x80 && s[i] as int == b[i]
    ensures Decode(b) == Some(s)
  {
    AsciiIsUtf8(b);
    assert AsciiDecode(b).value == s;
  }
}
