/** The binary container's header: the deserialiser of `src/util.js` (duplicated at the
    top of `src/stack-machine.js`) and, as its partner, the byte layout the assembler
    generator emits for it.

    Layout: "VMFC", then per section a little-endian (ptr, offset, length) triple, then
    "ENDS", then little-endian codePtr and codeLength. Reads go through a `DataView` over
    the whole file, so a read past its end raises a RangeError. */
module Header {
  import opened Bytes
  import opened Results

  datatype ReadError = RangeError(offset: int)

  datatype SectionDescriptor = SectionDescriptor(ptr: Word, offset: Word, length: Word)

  datatype HeaderInfo = HeaderInfo(codePtr: Word, codeLength: Word, sections: seq<SectionDescriptor>)

  /** `getUint32(0)` must equal this ("VMFC" read big-endian). */
  const MAGIC: nat := 0x564d4643
  /** The descriptor table ends where a big-endian 32-bit read gives "ENDS". */
  const ENDS_MARKER: nat := 0x454e4453

  const MagicBytes: seq<Byte> := [0x56, 0x4D, 0x46, 0x43]
  const EndsBytes: seq<Byte> := [0x45, 0x4E, 0x44, 0x53]

  /** The marker constants are the character codes of "VMFC" and "ENDS". */
  lemma MarkerSpelling()
    ensures forall i :: 0 <= i < 4 ==> MagicBytes[i] == "VMFC"[i] as int
    ensures forall i :: 0 <= i < 4 ==> EndsBytes[i] == "ENDS"[i] as int
    ensures DecodeBE32(MagicBytes[0], MagicBytes[1], MagicBytes[2], MagicBytes[3]) == MAGIC
    ensures DecodeBE32(EndsBytes[0], EndsBytes[1], EndsBytes[2], EndsBytes[3]) == ENDS_MARKER
  {
  }

  function GetUint16(buf: seq<Byte>, at: int, littleEndian: bool): (r: Result<Word, ReadError>)
    ensures r.Ok? <==> 0 <= at && at + 2 <= |buf|
  {
    if 0 <= at && at + 2 <= |buf| then
      Ok(if littleEndian then DecodeLE16(buf[at], buf[at + 1]) else DecodeBE16(buf[at], buf[at + 1]))
    else
      Err(RangeError(at))
  }

  function GetUint32(buf: seq<Byte>, at: int): (r: Result<nat, ReadError>)
    ensures r.Ok? <==> 0 <= at && at + 4 <= |buf|
  {
    if 0 <= at && at + 4 <= |buf| then
      Ok(DecodeBE32(buf[at], buf[at + 1], buf[at + 2], buf[at + 3]))
    else
      Err(RangeError(at))
  }

  /** True iff the first four bytes spell "VMFC"; a file shorter than four bytes makes the
      read itself fail. */
  function ValidateMagicNumber(buf: seq<Byte>): (r: Result<bool, ReadError>)
    ensures r.Ok? <==> |buf| >= 4
    ensures r.Ok? ==> (r.value <==> buf[..4] == MagicBytes)
  {
    var magic :- GetUint32(buf, 0);
    if magic == MAGIC then
      Ok(true)
    else
      assert buf[..4] != MagicBytes;
      Ok(false)
  }

  /** Do the four bytes at `at` spell "ENDS"? */
  predicate EndsAt(buf: seq<Byte>, at: int)
  {
    && 0 <= at && at + 4 <= |buf|
    && buf[at] == EndsBytes[0] && buf[at + 1] == EndsBytes[1]
    && buf[at + 2] == EndsBytes[2] && buf[at + 3] == EndsBytes[3]
  }

  /** The big-endian comparison with the marker is exactly a byte-wise comparison. */
  lemma EndsAtIff(buf: seq<Byte>, at: int)
    requires 0 <= at && at + 4 <= |buf|
    ensures GetUint32(buf, at).value == ENDS_MARKER <==> EndsAt(buf, at)
  {
    MarkerSpelling();
    if GetUint32(buf, at).value == ENDS_MARKER {
      DecodeBE32Injective(buf[at], buf[at + 1], buf[at + 2], buf[at + 3],
                          EndsBytes[0], EndsBytes[1], EndsBytes[2], EndsBytes[3]);
    }
  }

  /** The little-endian triple at `at`. */
  function DescriptorAt(buf: seq<Byte>, at: int): SectionDescriptor
    requires 0 <= at && at + 6 <= |buf|
  {
    SectionDescriptor(
      DecodeLE16(buf[at], buf[at + 1]),
      DecodeLE16(buf[at + 2], buf[at + 3]),
      DecodeLE16(buf[at + 4], buf[at + 5]))
  }

  /** The descriptor loop: reads 6-byte triples from `at` until the 4-byte window there
      is "ENDS"; returns the triples in file order and the offset just past the marker. */
  function ReadDescriptors(buf: seq<Byte>, at: int): Result<(seq<SectionDescriptor>, int), ReadError>
    decreases |buf| - at
  {
    var tag :- GetUint32(buf, at);
    if tag == ENDS_MARKER then
      Ok(([], at + 4))
    else
      var ptr :- GetUint16(buf, at, true);
      var offset :- GetUint16(buf, at + 2, true);
      var length :- GetUint16(buf, at + 4, true);
      var rest :- ReadDescriptors(buf, at + 6);
      Ok(([SectionDescriptor(ptr, offset, length)] + rest.0, rest.1))
  }

  /** A successful read ends with "ENDS" exactly 6N bytes after `at`, N the number of
      descriptors read. */
  lemma {:induction false} ReadDescriptorsEnd(buf: seq<Byte>, at: int)
    requires ReadDescriptors(buf, at).Ok?
    ensures var (ds, end) := ReadDescriptors(buf, at).value;
      end == at + 6 * |ds| + 4 <= |buf| && EndsAt(buf, end - 4)
    decreases |buf| - at
  {
    EndsAtIff(buf, at);
    if GetUint32(buf, at).value == ENDS_MARKER {
      assert ReadDescriptors(buf, at).value == ([], at + 4);
    } else {
      var r := ReadDescriptors(buf, at + 6);
      assert r.Ok?;
      ReadDescriptorsEnd(buf, at + 6);
      assert ReadDescriptors(buf, at).value == ([DescriptorAt(buf, at)] + r.value.0, r.value.1);
    }
  }

  /** Descriptor k of a successful read is the triple at `at + 6k`, and the window there
      is not "ENDS": the table stops at the first marker. */
  lemma {:induction false} ReadDescriptorsEntry(buf: seq<Byte>, at: int, k: int)
    requires ReadDescriptors(buf, at).Ok?
    requires 0 <= k < |ReadDescriptors(buf, at).value.0|
    ensures at + 6 * k + 6 <= |buf|
    ensures !EndsAt(buf, at + 6 * k)
    ensures ReadDescriptors(buf, at).value.0[k] == DescriptorAt(buf, at + 6 * k)
    decreases k
  {
    EndsAtIff(buf, at);
    if GetUint32(buf, at).value != ENDS_MARKER {
      var r := ReadDescriptors(buf, at + 6);
      assert r.Ok?;
      assert ReadDescriptors(buf, at).value == ([DescriptorAt(buf, at)] + r.value.0, r.value.1);
      if k > 0 {
        ReadDescriptorsEntry(buf, at + 6, k - 1);
        assert at + 6 + 6 * (k - 1) == at + 6 * k;
      }
    }
  }

  /** `getHeaderInformation`. */
  function GetHeaderInformation(buf: seq<Byte>): Result<HeaderInfo, ReadError>
  {
    var table :- ReadDescriptors(buf, 4);
    var codePtr :- GetUint16(buf, table.1, true);
    var codeLength :- GetUint16(buf, table.1 + 2, true);
    Ok(HeaderInfo(codePtr, codeLength, table.0))
  }

  // ---------------------------------------------------------------- serialiser

  function EncodeDescriptor(d: SectionDescriptor): (r: seq<Byte>)
    ensures |r| == 6
  {
    EncodeLE16(d.ptr) + EncodeLE16(d.offset) + EncodeLE16(d.length)
  }

  function EncodeDescriptors(ds: seq<SectionDescriptor>): (r: seq<Byte>)
    ensures |r| == 6 * |ds|
  {
    if |ds| == 0 then [] else EncodeDescriptor(ds[0]) + EncodeDescriptors(ds[1..])
  }

  /** The header as the generator lays it out; its size is 12 + 6N bytes. */
  function EncodeHeader(h: HeaderInfo): (r: seq<Byte>)
    ensures |r| == 12 + 6 * |h.sections|
  {
    MagicBytes + EncodeDescriptors(h.sections) + EndsBytes + EncodeLE16(h.codePtr) + EncodeLE16(h.codeLength)
  }

  /** A descriptor whose first four bytes read as the end marker. */
  predicate SpellsEnds(d: SectionDescriptor)
  {
    EncodeLE16(d.ptr) + EncodeLE16(d.offset) == EndsBytes
  }

  lemma {:induction false} ReadEncodedDescriptors(buf: seq<Byte>, at: int, ds: seq<SectionDescriptor>)
    requires 0 <= at && at + 6 * |ds| + 4 <= |buf|
    requires buf[at..at + 6 * |ds| + 4] == EncodeDescriptors(ds) + EndsBytes
    requires forall d :: d in ds ==> !SpellsEnds(d)
    ensures ReadDescriptors(buf, at) == Ok((ds, at + 6 * |ds| + 4))
    decreases |ds|
  {
    if |ds| == 0 {
      EndsAtIff(buf, at);
    } else {
      SplitEncoded(buf, at, ds);
      DescriptorDecodes(buf, at, ds[0]);
      assert ds[0] in ds;
      ReadEncodedDescriptors(buf, at + 6, ds[1..]);
      ReadDescriptorsStep(buf, at);
      assert [ds[0]] + ds[1..] == ds;
    }
  }

  /** An encoded table is its first descriptor followed by the encoding of the rest. */
  lemma SplitEncoded(buf: seq<Byte>, at: int, ds: seq<SectionDescriptor>)
    requires |ds| > 0 && 0 <= at && at + 6 * |ds| + 4 <= |buf|
    requires buf[at..at + 6 * |ds| + 4] == EncodeDescriptors(ds) + EndsBytes
    ensures buf[at..at + 6] == EncodeDescriptor(ds[0])
    ensures buf[at + 6..at + 6 + 6 * |ds[1..]| + 4] == EncodeDescriptors(ds[1..]) + EndsBytes
  {
    var n := 6 * |ds| + 4;
    var rest := EncodeDescriptors(ds[1..]) + EndsBytes;
    assert buf[at..at + n] == EncodeDescriptor(ds[0]) + rest;
    SliceOfSlice(buf, at, at + n, 0, 6);
    SliceOfSlice(buf, at, at + n, 6, n);
  }

  /** A slice of a slice is a slice. */
  lemma SliceOfSlice(buf: seq<Byte>, lo: int, hi: int, i: int, j: int)
    requires 0 <= lo <= hi <= |buf| && 0 <= i <= j <= hi - lo
    ensures buf[lo..hi][i..j] == buf[lo + i..lo + j]
  {
    assert forall k | 0 <= k < j - i :: buf[lo..hi][i..j][k] == buf[lo + i + k];
  }

  /** The six bytes of an encoded descriptor decode back to it, and they are no end
      marker unless the descriptor spells one. */
  lemma DescriptorDecodes(buf: seq<Byte>, at: int, d: SectionDescriptor)
    requires 0 <= at && at + 6 <= |buf|
    requires buf[at..at + 6] == EncodeDescriptor(d)
    ensures DescriptorAt(buf, at) == d
    ensures EndsAt(buf, at) <==> SpellsEnds(d)
  {
    var e := EncodeDescriptor(d);
    assert forall k | 0 <= k < 6 :: buf[at + k] == e[k];
    LE16RoundTrip(d.ptr);
    LE16RoundTrip(d.offset);
    LE16RoundTrip(d.length);
    var head := EncodeLE16(d.ptr) + EncodeLE16(d.offset);
    assert SpellsEnds(d) <==> head == EndsBytes;
    assert forall k | 0 <= k < 4 :: head[k] == e[k];
    assert head == EndsBytes <==> EndsAt(buf, at);
  }

  /** One turn of the descriptor loop away from the marker. */
  lemma ReadDescriptorsStep(buf: seq<Byte>, at: int)
    requires 0 <= at && at + 6 <= |buf| && !EndsAt(buf, at)
    requires ReadDescriptors(buf, at + 6).Ok?
    ensures ReadDescriptors(buf, at) ==
      Ok(([DescriptorAt(buf, at)] + ReadDescriptors(buf, at + 6).value.0, ReadDescriptors(buf, at + 6).value.1))
  {
    EndsAtIff(buf, at);
  }

  /** Parsing a header the generator laid out — followed by anything — returns exactly
      its descriptors, code pointer and code length, provided no descriptor begins with
      the bytes of "ENDS". */
  lemma HeaderRoundTrip(h: HeaderInfo, rest: seq<Byte>)
    requires forall d :: d in h.sections ==> !SpellsEnds(d)
    ensures ValidateMagicNumber(EncodeHeader(h) + rest) == Ok(true)
    ensures GetHeaderInformation(EncodeHeader(h) + rest) == Ok(h)
  {
    var table := EncodeDescriptors(h.sections) + EndsBytes;
    var tail := EncodeLE16(h.codePtr) + EncodeLE16(h.codeLength) + rest;
    var buf := EncodeHeader(h) + rest;
    assert buf == MagicBytes + table + tail;
    var end := 4 + |table|;
    assert buf[..4] == MagicBytes;
    assert buf[4..end] == table;
    ReadEncodedDescriptors(buf, 4, h.sections);
    assert buf[end..end + 2] == EncodeLE16(h.codePtr);
    assert buf[end + 2..end + 4] == EncodeLE16(h.codeLength);
    LE16RoundTrip(h.codePtr);
    LE16RoundTrip(h.codeLength);
  }

  /** Without that proviso the round trip fails: a descriptor with ptr 0x4E45 and offset
      0x5344 ends the table early. */
  lemma EndsCollision()
    ensures SpellsEnds(SectionDescriptor(0x4E45, 0x5344, 0))
    ensures GetHeaderInformation(EncodeHeader(HeaderInfo(0, 0, [SectionDescriptor(0x4E45, 0x5344, 0)])))
      != Ok(HeaderInfo(0, 0, [SectionDescriptor(0x4E45, 0x5344, 0)]))
  {
    var h := HeaderInfo(0, 0, [SectionDescriptor(0x4E45, 0x5344, 0)]);
    var buf := EncodeHeader(h);
    assert buf[4..8] == EndsBytes;
    EndsAtIff(buf, 4);
  }
}
