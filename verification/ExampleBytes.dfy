/** The pack of the example repository, byte by byte. */
module ExampleBytes {
  import opened Bytes
  import opened Objects
  import opened Example
  import opened Fetch
  import TB = TreeBytes
  import V = Varints
  import PL = PktLine
  import PF = PackFile
  import PC = PackContents

  function Repeated(s: string, n: nat): string {
    if n == 0 then "" else s + Repeated(s, n - 1)
  }

  lemma AsciiSum(s: string, t: string)
    ensures Ascii(s + t) == Ascii(s) + Ascii(t)
  {}

  lemma {:induction false} HexRepeats(oid: OID, b: byte, digits: string)
    requires forall i :: 0 <= i < |oid| ==> oid[i] == b
    requires Ascii(digits) == [PL.HexDigit(b / 16), PL.HexDigit(b % 16)]
    ensures Hex(oid) == Ascii(Repeated(digits, |oid|))
  {
    hide PL.HexDigit, Ascii;
    if oid == [] {
      assert Ascii("") == [];
    } else {
      HexRepeats(oid[1..], b, digits);
      AsciiSum(digits, Repeated(digits, |oid| - 1));
    }
  }

  lemma HexOfId(kind: byte, n: nat, first: string, digits: string)
    requires Ascii(first) == [PL.HexDigit(kind / 16), PL.HexDigit(kind % 16)]
    requires Ascii(digits) == [PL.HexDigit((n + 1) % 256 / 16), PL.HexDigit((n + 1) % 256 % 16)]
    ensures Hex(Id(kind, n)) == Ascii(first + Repeated(digits, 19))
  {
    var oid := Id(kind, n);
    assert oid[0] == kind && forall i :: 0 < i < 20 ==> oid[i] == (n + 1) % 256;
    hide PL.HexDigit, Ascii, Id;
    HexRepeats(oid[1..], (n + 1) % 256, digits);
    AsciiSum(first, Repeated(digits, 19));
  }

  lemma TreeInBytes()
    ensures TreeData() == Ascii("100644") + Ascii(" ") + Ascii("f") + [0] + Id(3, 2)
  {
    var item := TB.Item("100644", Ascii("f"), Id(3, 2));
    assert NAME == Ascii("f");
    hide Id;
    TB.TextOfTree([item], 20);
    assert TB.AsEntries([item]) == [ENTRY];
    assert TB.Text(item) + [] == TB.Text(item);
    assert [item][1..] == [];
  }

  lemma LineInBytes(key: string, hex: bytes, text: string)
    requires hex == Ascii(text)
    ensures Ascii(key) + hex + [NEWLINE] == Ascii(key + text + "\n")
  {
    assert Ascii("\n") == [NEWLINE];
    hide Ascii;
    AsciiSum(key, text);
    AsciiSum(key + text, "\n");
  }

  lemma CommitInBytes()
    ensures CommitData() == Ascii("tree " + ("02" + Repeated("1e", 19)) + "\n")
  {
    hide Hex, Id, TreeData, Repeated;
    Lengths();
    HexOfId(2, 29, "02", "1e");
    assert TREE_KEY == Ascii("tree ");
    hide Ascii;
    LineInBytes("tree ", Hex(Id(2, 29)), "02" + Repeated("1e", 19));
  }

  lemma TagInBytes()
    ensures TagData() == Ascii("object " + ("01" + Repeated("2f", 19)) + "\n")
  {
    hide Hex, Id, CommitData, Repeated;
    Lengths();
    HexOfId(1, 46, "01", "2f");
    assert OBJECT_KEY == Ascii("object ");
    hide Ascii;
    LineInBytes("object ", Hex(Id(1, 46)), "01" + Repeated("2f", 19));
  }

  lemma HeadersInBytes()
    ensures V.EncodeHeader(BLOB, 1) == [0x31] && V.EncodeHeader(OFS_DELTA, 6) == [0x66] && V.EncodeOfs(4) == [0x04]
    ensures V.EncodeHeader(TREE, 29) == [0xad, 0x01] && V.EncodeHeader(COMMIT, 46) == [0x9e, 0x02]
    ensures V.EncodeHeader(TAG, 48) == [0xc0, 0x03]
  {
    assert V.EncodeOfsPrefix(0) == [];
  }

  lemma OneWritten(k: PF.Codec, deflate: bytes -> bytes, es: seq<PF.Entry>, i: nat)
    requires PC.AllWritable(k, es) && i < |es|
    ensures PC.WriteEntries(k, deflate, es[i..])
         == PF.WriteEntry(k, deflate, es[i]) + PC.WriteEntries(k, deflate, es[i + 1..])
  {
    assert es[i..][1..] == es[i + 1..];
  }

  lemma FiveJoined(a: bytes, b: bytes, c: bytes, d: bytes, e: bytes)
    ensures a + (b + (c + (d + (e + [])))) == a + b + c + d + e
  {
    Assoc(c, d, e);
    Assoc(b, c, d + e);
    Assoc(b + c, d, e);
    Assoc(a, b, c + (d + e));
    Assoc(a + b, c, d + e);
    Assoc(a + b + c, d, e);
    assert e + [] == e;
  }

  lemma FiveWritten(k: PF.Codec, deflate: bytes -> bytes, es: seq<PF.Entry>)
    requires PC.AllWritable(k, es) && |es| == 5
    ensures PC.WriteEntries(k, deflate, es) ==
              PF.WriteEntry(k, deflate, es[0]) + PF.WriteEntry(k, deflate, es[1]) + PF.WriteEntry(k, deflate, es[2])
              + PF.WriteEntry(k, deflate, es[3]) + PF.WriteEntry(k, deflate, es[4])
  {
    hide PF.WriteEntry, PF.Writable;
    OneWritten(k, deflate, es, 0);
    OneWritten(k, deflate, es, 1);
    OneWritten(k, deflate, es, 2);
    OneWritten(k, deflate, es, 3);
    OneWritten(k, deflate, es, 4);
    assert es[0..] == es;
    FiveJoined(PF.WriteEntry(k, deflate, es[0]), PF.WriteEntry(k, deflate, es[1]), PF.WriteEntry(k, deflate, es[2]),
               PF.WriteEntry(k, deflate, es[3]), PF.WriteEntry(k, deflate, es[4]));
  }

  lemma DeltaInBytes()
    ensures DeltaBytes() == [1, 2, 0x90, 1, 1, 0x62]
  {
    assert V.EncodeLeb(1) == [1] && V.EncodeLeb(2) == [2];
  }

  lemma PlainWritten(typ: nat, data: bytes, header: bytes)
    requires PF.Writable(CODEC, PF.Plain(typ, data)) && V.EncodeHeader(typ, |data|) == header
    ensures PF.WriteEntry(CODEC, Deflate, PF.Plain(typ, data)) == header + Deflate(data)
  {
    hide V.EncodeHeader, Deflate;
    assert header + [] == header;
  }

  lemma DeltaWritten()
    requires PF.Writable(CODEC, PF.Ofs(4, DeltaBytes()))
    ensures PF.WriteEntry(CODEC, Deflate, PF.Ofs(4, DeltaBytes())) == [0x66, 0x04] + Deflate([1, 2, 0x90, 1, 1, 0x62])
  {
    HeadersInBytes();
    DeltaInBytes();
    hide V.EncodeHeader, V.EncodeOfs, Deflate;
  }

  /** Each entry: its header, and what is compressed. */
  lemma FirstInBytes()
    requires PC.AllWritable(CODEC, Entries())
    ensures PF.WriteEntry(CODEC, Deflate, Entries()[0]) == [0x31] + Deflate(Ascii("a"))
    ensures PF.WriteEntry(CODEC, Deflate, Entries()[1]) == [0x66, 0x04] + Deflate([1, 2, 0x90, 1, 1, 0x62])
  {
    assert OLD == Ascii("a") && |OLD| == 1;
    hide Ascii, Id, Deflate, TreeData, CommitData, TagData, DeltaBytes, Distance, V.EncodeHeader, PF.WriteEntry;
    var es := Entries();
    assert PF.Writable(CODEC, es[0]) && PF.Writable(CODEC, es[1]);
    hide PF.Writable;
    HeadersInBytes();
    DistanceIsFour();
    PlainWritten(BLOB, OLD, [0x31]);
    DeltaWritten();
  }

  lemma OthersInBytes()
    requires PC.AllWritable(CODEC, Entries())
    ensures PF.WriteEntry(CODEC, Deflate, Entries()[2]) ==
              [0xad, 0x01] + Deflate(Ascii("100644") + Ascii(" ") + Ascii("f") + [0] + Id(3, 2))
    ensures PF.WriteEntry(CODEC, Deflate, Entries()[3]) ==
              [0x9e, 0x02] + Deflate(Ascii("tree " + ("02" + Repeated("1e", 19)) + "\n"))
    ensures PF.WriteEntry(CODEC, Deflate, Entries()[4]) ==
              [0xc0, 0x03] + Deflate(Ascii("object " + ("01" + Repeated("2f", 19)) + "\n"))
  {
    hide Ascii, Id, Deflate, TreeData, CommitData, TagData, DeltaBytes, Distance, V.EncodeHeader, PF.WriteEntry;
    hide Repeated;
    var es := Entries();
    assert PF.Writable(CODEC, es[2]) && PF.Writable(CODEC, es[3]) && PF.Writable(CODEC, es[4]);
    hide PF.Writable;
    HeadersInBytes();
    Lengths();
    PlainWritten(TREE, TreeData(), [0xad, 0x01]);
    PlainWritten(COMMIT, CommitData(), [0x9e, 0x02]);
    PlainWritten(TAG, TagData(), [0xc0, 0x03]);
    TreeInBytes();
    CommitInBytes();
    TagInBytes();
  }

  /** The whole response. */
  lemma ResponseInBytes()
    requires PC.AllWritable(CODEC, Entries())
    ensures Response() ==
              Ascii("PACK") + [0, 0, 0, 2] + [0, 0, 0, 5]
              + ([0x31] + Deflate(Ascii("a"))
                 + ([0x66, 0x04] + Deflate([1, 2, 0x90, 1, 1, 0x62]))
                 + ([0xad, 0x01] + Deflate(Ascii("100644") + Ascii(" ") + Ascii("f") + [0] + Id(3, 2)))
                 + ([0x9e, 0x02] + Deflate(Ascii("tree " + ("02" + Repeated("1e", 19)) + "\n")))
                 + ([0xc0, 0x03] + Deflate(Ascii("object " + ("01" + Repeated("2f", 19)) + "\n"))))
              + Id(0, 0)
  {
    assert PACK == Ascii("PACK");
    assert EncodeBigEndian(2, 4) == [0, 0, 0, 2] && EncodeBigEndian(5, 4) == [0, 0, 0, 5];
    FiveEach();
    FirstInBytes();
    OthersInBytes();
    hide Ascii, Id, Deflate, Entries, Repeated, EncodeBigEndian, PC.AllWritable, PF.WriteEntry;
    FiveWritten(CODEC, Deflate, Entries());
  }
}
