/**
 * What an uploaded photo is, decided from its bytes (packages/security/src/images.ts): the JPEG
 * segment walkers, the PNG chunk walker, and the inspection that uses them. The walkers are proved
 * right on every file laid out as ITU-T T.81 (sections B.1.1 and B.2.2) or RFC 2083 (section 3.2)
 * lays files out, up to the first TEM marker; that one the code takes for a segment with a length.
 */
module ImageHeaders {
  import opened Wrappers
  import opened Bytes

  datatype ImageType = Jpeg | Png

  datatype ImageHeader = ImageHeader(kind: ImageType, width: nat, height: nat)

  const JPEG_SOI: seq<Byte> := [0xFF, 0xD8]
  const JPEG_EOI: seq<Byte> := [0xFF, 0xD9]
  const PNG_SIGNATURE: seq<Byte> := [0x89, 0x50, 0x4E, 0x47, 0x0D, 0x0A, 0x1A, 0x0A]
  const PNG_IEND: seq<Byte> := [0, 0, 0, 0, 0x49, 0x45, 0x4E, 0x44, 0xAE, 0x42, 0x60, 0x82]
  const EXIF: seq<Byte> := [0x45, 0x78, 0x69, 0x66]
  const IHDR: seq<Byte> := [0x49, 0x48, 0x44, 0x52]
  const EXIF_CHUNK: seq<Byte> := [0x65, 0x58, 0x49, 0x66]

  predicate EndsWith(bytes: seq<Byte>, suffix: seq<Byte>) {
    |bytes| >= |suffix| && bytes[|bytes| - |suffix|..] == suffix
  }

  function SniffImageType(bytes: seq<Byte>): Option<ImageType> {
    if PNG_SIGNATURE <= bytes then Some(Png)
    else if JPEG_SOI <= bytes then Some(Jpeg)
    else None
  }

  // ------------------------------------------------------------------ //
  // The JPEG walk
  // ------------------------------------------------------------------ //

  /** SOI, EOI and the eight restart markers: what the code takes to carry no length. */
  predicate Standalone(marker: Byte) {
    0xD0 <= marker <= 0xD9
  }

  predicate IsFrameHeader(marker: Byte) {
    0xC0 <= marker <= 0xCF && marker != 0xC4 && marker != 0xC8 && marker != 0xCC
  }

  /** What the walkers make of the bytes in front of them. */
  datatype Turn = Stop | Skip(n: nat) | Segment(marker: Byte, length: nat)

  function TurnAt(b: seq<Byte>): (t: Turn)
    requires |b| > 3
    ensures t.Skip? ==> 1 <= t.n <= 2
    ensures t.Segment? ==> t.length >= 2
  {
    if b[0] != 0xFF then Stop
    else if b[1] == 0xFF then Skip(1)
    else if Standalone(b[1]) then Skip(2)
    else if b[1] == 0xDA then Stop
    else if Word16(b, 2) < 2 then Stop
    else Segment(b[1], Word16(b, 2))
  }

  function Drop(b: seq<Byte>, n: nat): (rest: seq<Byte>)
    ensures n > 0 && |b| > 0 ==> |rest| < |b|
  {
    if n <= |b| then b[n..] else []
  }

  /** The dimensions of the first frame header from here on. */
  function FrameFrom(b: seq<Byte>): Option<ImageHeader>
    decreases |b|
  {
    if |b| <= 3 then None
    else match TurnAt(b)
      case Stop => None
      case Skip(n) => FrameFrom(b[n..])
      case Segment(marker, length) =>
        if IsFrameHeader(marker) then
          if |b| <= 9 then None else Some(ImageHeader(Jpeg, Word16(b, 7), Word16(b, 5)))
        else FrameFrom(Drop(b, 2 + length))
  }

  /** Whether an APP1 Exif segment comes before the scan. */
  predicate ExifFrom(b: seq<Byte>)
    decreases |b|
  {
    |b| > 3
    && match TurnAt(b)
       case Stop => false
       case Skip(n) => ExifFrom(b[n..])
       case Segment(marker, length) =>
         || (marker == 0xE1 && |b| > 8 && Word32(b, 4) == 0x4578_6966)
         || ExifFrom(Drop(b, 2 + length))
  }

  lemma DropDrop(b: seq<Byte>, m: nat, n: nat)
    ensures Drop(Drop(b, m), n) == Drop(b, m + n)
  {
    if m + n <= |b| { assert b[m..][n..] == b[m + n..]; }
  }

  lemma WordsInPlace(bytes: seq<Byte>, offset: nat, i: nat)
    ensures offset + i + 2 <= |bytes| ==> Word16(Drop(bytes, offset), i) == Word16(bytes, offset + i)
    ensures offset + i + 4 <= |bytes| ==> Word32(Drop(bytes, offset), i) == Word32(bytes, offset + i)
  {
  }

  lemma TurnInPlace(bytes: seq<Byte>, offset: nat)
    requires offset + 3 < |bytes|
    ensures |Drop(bytes, offset)| == |bytes| - offset
    ensures TurnAt(Drop(bytes, offset))
            == if bytes[offset] != 0xFF then Stop
               else if bytes[offset + 1] == 0xFF then Skip(1)
               else if Standalone(bytes[offset + 1]) then Skip(2)
               else if bytes[offset + 1] == 0xDA then Stop
               else if Word16(bytes, offset + 2) < 2 then Stop
               else Segment(bytes[offset + 1], Word16(bytes, offset + 2))
  {
    hide Word16;
    WordsInPlace(bytes, offset, 2);
  }

  function AfterTurn(t: Turn): nat {
    match t
    case Stop => 0
    case Skip(n) => n
    case Segment(_, length) => 2 + length
  }

  lemma FrameTurn(b: seq<Byte>)
    requires |b| > 3
    ensures var t := TurnAt(b);
            FrameFrom(b)
            == if t.Stop? then None
               else if t.Skip? || !IsFrameHeader(t.marker) then FrameFrom(Drop(b, AfterTurn(t)))
               else if |b| <= 9 then None
               else Some(ImageHeader(Jpeg, Word16(b, 7), Word16(b, 5)))
  {
    hide Word16, IsFrameHeader;
    assert TurnAt(b).Skip? ==> Drop(b, AfterTurn(TurnAt(b))) == b[AfterTurn(TurnAt(b))..];
    hide TurnAt;
  }

  lemma FrameStep(bytes: seq<Byte>, offset: nat)
    requires offset + 3 < |bytes|
    ensures var t := TurnAt(Drop(bytes, offset));
            FrameFrom(Drop(bytes, offset))
            == if t.Stop? then None
               else if t.Skip? || !IsFrameHeader(t.marker) then FrameFrom(Drop(bytes, offset + AfterTurn(t)))
               else if offset + 9 >= |bytes| then None
               else Some(ImageHeader(Jpeg, Word16(bytes, offset + 7), Word16(bytes, offset + 5)))
  {
    FrameTurn(Drop(bytes, offset));
    WordsInPlace(bytes, offset, 5);
    WordsInPlace(bytes, offset, 7);
    DropDrop(bytes, offset, AfterTurn(TurnAt(Drop(bytes, offset))));
    hide Word16, TurnAt, FrameFrom, AfterTurn, IsFrameHeader;
  }

  lemma ExifTurn(b: seq<Byte>)
    requires |b| > 3
    ensures var t := TurnAt(b);
            ExifFrom(b)
            == (!t.Stop? && (|| (t.Segment? && t.marker == 0xE1 && |b| > 8 && Word32(b, 4) == 0x4578_6966)
                             || ExifFrom(Drop(b, AfterTurn(t)))))
  {
    hide Word16, Word32;
    assert TurnAt(b).Skip? ==> Drop(b, AfterTurn(TurnAt(b))) == b[AfterTurn(TurnAt(b))..];
    hide TurnAt;
  }

  lemma ExifStep(bytes: seq<Byte>, offset: nat)
    requires offset + 3 < |bytes|
    ensures var t := TurnAt(Drop(bytes, offset));
            ExifFrom(Drop(bytes, offset))
            == (!t.Stop? && (|| (t.Segment? && t.marker == 0xE1 && offset + 8 < |bytes|
                                 && Word32(bytes, offset + 4) == 0x4578_6966)
                             || ExifFrom(Drop(bytes, offset + AfterTurn(t)))))
  {
    ExifTurn(Drop(bytes, offset));
    WordsInPlace(bytes, offset, 4);
    DropDrop(bytes, offset, AfterTurn(TurnAt(Drop(bytes, offset))));
    hide Word32, TurnAt, ExifFrom, AfterTurn;
  }

  lemma NothingLeft(bytes: seq<Byte>, offset: nat)
    requires offset + 3 >= |bytes|
    ensures FrameFrom(Drop(bytes, offset)) == None && !ExifFrom(Drop(bytes, offset))
  {
  }

  method ReadJpegHeader(bytes: seq<Byte>) returns (r: Option<ImageHeader>)
    ensures r == FrameFrom(Drop(bytes, 2))
  {
    hide Word16, TurnAt, FrameFrom, Drop;
    var offset: nat := 2;
    while offset + 3 < |bytes|
      invariant FrameFrom(Drop(bytes, 2)) == FrameFrom(Drop(bytes, offset))
      decreases |bytes| - offset
    {
      TurnInPlace(bytes, offset);
      FrameStep(bytes, offset);
      if bytes[offset] != 0xFF { return None; }
      var marker := bytes[offset + 1];
      if marker == 0xFF {
        offset := offset + 1;
        continue;
      }
      if marker == 0xD8 || marker == 0xD9 || 0xD0 <= marker <= 0xD7 {
        offset := offset + 2;
        continue;
      }
      if marker == 0xDA { return None; }
      var length := Word16(bytes, offset + 2);
      if length < 2 { return None; }
      if IsFrameHeader(marker) {
        if offset + 9 >= |bytes| { return None; }
        return Some(ImageHeader(Jpeg, Word16(bytes, offset + 7), Word16(bytes, offset + 5)));
      }
      offset := offset + 2 + length;
    }
    NothingLeft(bytes, offset);
    r := None;
  }

  method FindJpegApp1Exif(bytes: seq<Byte>) returns (found: bool)
    ensures found == ExifFrom(Drop(bytes, 2))
  {
    hide Word16, Word32, TurnAt, ExifFrom, Drop;
    var offset: nat := 2;
    while offset + 3 < |bytes|
      invariant ExifFrom(Drop(bytes, 2)) == ExifFrom(Drop(bytes, offset))
      decreases |bytes| - offset
    {
      TurnInPlace(bytes, offset);
      ExifStep(bytes, offset);
      if bytes[offset] != 0xFF { return false; }
      var marker := bytes[offset + 1];
      if marker == 0xFF {
        offset := offset + 1;
        continue;
      }
      if marker == 0xD8 || marker == 0xD9 || 0xD0 <= marker <= 0xD7 {
        offset := offset + 2;
        continue;
      }
      if marker == 0xDA { return false; }
      var length := Word16(bytes, offset + 2);
      if length < 2 { return false; }
      if marker == 0xE1 && offset + 8 < |bytes| && Word32(bytes, offset + 4) == 0x4578_6966 {
        return true;
      }
      offset := offset + 2 + length;
    }
    NothingLeft(bytes, offset);
    found := false;
  }

  // ------------------------------------------------------------------ //
  // Files as the standard lays them out
  // ------------------------------------------------------------------ //

  /** A marker with the fill bytes before it, standing alone or heading a segment. */
  datatype Item = Alone(fill: nat, marker: Byte) | Headed(fill: nat, marker: Byte, payload: seq<Byte>)

  datatype Layout = Layout(items: seq<Item>, fill: nat, scan: seq<Byte>)

  function Fill(n: nat): seq<Byte> {
    if n == 0 then [] else [0xFF] + Fill(n - 1)
  }

  /**
   * B.1.1.4: a segment's length counts its own two bytes. A frame header holds at least precision,
   * height and width.
   */
  predicate GoodItem(item: Item) {
    match item
    case Alone(_, marker) => Standalone(marker)
    case Headed(_, marker, payload) =>
      && marker !in {0x00, 0x01, 0xDA, 0xFF} && !Standalone(marker) && |payload| + 2 < 0x1_0000
      && (IsFrameHeader(marker) ==> |payload| >= 5)
  }

  /**
   * Table B.1: RST0 to RST7, SOI and EOI stand alone; thirteen markers start a frame, which DHT, JPG and
   * DAC do not.
   */
  lemma MarkersOfTheStandard(marker: Byte)
    ensures Standalone(marker) <==> marker in {0xD0, 0xD1, 0xD2, 0xD3, 0xD4, 0xD5, 0xD6, 0xD7, 0xD8, 0xD9}
    ensures IsFrameHeader(marker)
            <==> marker in {0xC0, 0xC1, 0xC2, 0xC3, 0xC5, 0xC6, 0xC7, 0xC9, 0xCA, 0xCB, 0xCD, 0xCE, 0xCF}
  {
  }

  function MarkerBytes(item: Item): seq<Byte>
    requires item.Headed? ==> |item.payload| + 2 < 0x1_0000
  {
    match item
    case Alone(_, marker) => [0xFF, marker]
    case Headed(_, marker, payload) => [0xFF, marker] + Bytes16(|payload| + 2) + payload
  }

  ghost predicate GoodItems(items: seq<Item>) {
    forall k :: 0 <= k < |items| ==> GoodItem(items[k])
  }

  function ItemsBytes(items: seq<Item>, tail: seq<Byte>): seq<Byte>
    requires forall k :: 0 <= k < |items| && items[k].Headed? ==> |items[k].payload| + 2 < 0x1_0000
  {
    if |items| == 0 then tail
    else Fill(items[0].fill) + (MarkerBytes(items[0]) + ItemsBytes(items[1..], tail))
  }

  /** SOI, the items, then the start of scan and whatever follows it. */
  function LayoutBytes(l: Layout): seq<Byte>
    requires forall k :: 0 <= k < |l.items| && l.items[k].Headed? ==> |l.items[k].payload| + 2 < 0x1_0000
  {
    [0xFF, 0xD8] + ItemsBytes(l.items, ScanBytes(l))
  }

  function ScanBytes(l: Layout): seq<Byte> {
    Fill(l.fill) + ([0xFF, 0xDA] + l.scan)
  }

  /** The dimensions the first frame header states: precision, then height, then width. */
  function FirstFrame(items: seq<Item>): Option<ImageHeader>
    requires forall k :: 0 <= k < |items| && items[k].Headed? && IsFrameHeader(items[k].marker) ==>
               |items[k].payload| >= 5
  {
    if |items| == 0 then None
    else if items[0].Headed? && IsFrameHeader(items[0].marker) then
      Some(ImageHeader(Jpeg, Word16(items[0].payload, 3), Word16(items[0].payload, 1)))
    else FirstFrame(items[1..])
  }

  predicate IsExif(item: Item) {
    item.Headed? && item.marker == 0xE1 && [0x45, 0x78, 0x69, 0x66] <= item.payload
  }

  predicate HasExifSegment(items: seq<Item>) {
    exists k :: 0 <= k < |items| && IsExif(items[k])
  }

  lemma OneFillByte(b: seq<Byte>)
    requires |b| >= 3 && b[0] == 0xFF && b[1] == 0xFF
    ensures FrameFrom(b) == FrameFrom(b[1..]) && ExifFrom(b) == ExifFrom(b[1..])
  {
    hide Word16, Word32;
    if |b| > 3 { assert TurnAt(b) == Skip(1); }
  }

  /** Fill bytes are stepped over one at a time. */
  lemma {:induction false} FillIsSkipped(n: nat, rest: seq<Byte>)
    requires |rest| >= 2 && rest[0] == 0xFF
    ensures FrameFrom(Fill(n) + rest) == FrameFrom(rest) && ExifFrom(Fill(n) + rest) == ExifFrom(rest)
    ensures (Fill(n) + rest)[0] == 0xFF && |Fill(n) + rest| >= 2
    decreases n
  {
    hide FrameFrom, ExifFrom;
    if n == 0 {
      assert Fill(0) + rest == rest;
    } else {
      FillIsSkipped(n - 1, rest);
      var b := Fill(n) + rest;
      assert b[1..] == Fill(n - 1) + rest;
      assert b[1] == (Fill(n - 1) + rest)[0];
      OneFillByte(b);
    }
  }

  lemma AloneIsSkipped(item: Item, rest: seq<Byte>)
    requires item.Alone? && Standalone(item.marker) && |rest| >= 2
    ensures FrameFrom(MarkerBytes(item) + rest) == FrameFrom(rest)
    ensures ExifFrom(MarkerBytes(item) + rest) == ExifFrom(rest)
  {
    var b := MarkerBytes(item) + rest;
    assert b[2..] == rest;
    assert TurnAt(b) == Skip(2);
  }

  lemma HeadedTurn(item: Item, rest: seq<Byte>)
    requires item.Headed? && GoodItem(item) && |rest| >= 2
    ensures var b := MarkerBytes(item) + rest;
            && |b| == 4 + |item.payload| + |rest| && TurnAt(b) == Segment(item.marker, |item.payload| + 2)
            && Drop(b, 4 + |item.payload|) == rest
            && forall i :: 0 <= i < |item.payload| + |rest| ==> b[4 + i] == (item.payload + rest)[i]
  {
    var b := MarkerBytes(item) + rest;
    assert b == [0xFF, item.marker] + Bytes16(|item.payload| + 2) + (item.payload + rest);
    assert b[2] == Bytes16(|item.payload| + 2)[0] && b[3] == Bytes16(|item.payload| + 2)[1];
    assert Word16(b, 2) == |item.payload| + 2;
  }

  lemma HeadedFrame(item: Item, rest: seq<Byte>)
    requires item.Headed? && GoodItem(item) && |rest| >= 2
    ensures FrameFrom(MarkerBytes(item) + rest)
            == if IsFrameHeader(item.marker)
              then Some(ImageHeader(Jpeg, Word16(item.payload, 3), Word16(item.payload, 1)))
               else FrameFrom(rest)
  {
    hide TurnAt, MarkerBytes;
    var b := MarkerBytes(item) + rest;
    HeadedTurn(item, rest);
    if IsFrameHeader(item.marker) {
      assert forall i :: 0 <= i < 5 ==> b[4 + i] == (item.payload + rest)[i] == item.payload[i];
    }
  }

  lemma ExifWord(b: seq<Byte>)
    requires |b| > 8
    ensures Word32(b, 4) == 0x4578_6966 <==> b[4..8] == EXIF
  {
    WordsDetermineBytes(b, 4, EXIF, 0);
    assert Word32(EXIF, 0) == 0x4578_6966 && EXIF[0..4] == EXIF;
  }

  lemma HeadedExif(item: Item, rest: seq<Byte>)
    requires item.Headed? && GoodItem(item) && |rest| >= 2 && rest[0] == 0xFF
    ensures ExifFrom(MarkerBytes(item) + rest) == (IsExif(item) || ExifFrom(rest))
  {
    hide TurnAt, MarkerBytes;
    var b := MarkerBytes(item) + rest;
    HeadedTurn(item, rest);
    var p := item.payload;
    if |b| > 8 {
      ExifWord(b);
      assert b[4..8] == (p + rest)[..4];
      if |p| < 4 {
        assert (p + rest)[|p|] == 0xFF;
        assert b[4..8][|p|] == 0xFF;
      } else {
        assert (p + rest)[..4] == p[..4];
      }
    }
  }

  /**
   * Walking the items: the first frame header is found, and Exif is reported exactly when it is there
   * or in what follows.
   */
  lemma {:induction false} WalkItems(items: seq<Item>, tail: seq<Byte>)
    requires GoodItems(items) && |tail| >= 2 && tail[0] == 0xFF
    ensures var b := ItemsBytes(items, tail);
            && FrameFrom(b) == (if FirstFrame(items).Some? then FirstFrame(items) else FrameFrom(tail))
            && ExifFrom(b) == (HasExifSegment(items) || ExifFrom(tail))
            && |b| >= 2 && b[0] == 0xFF
    decreases |items|
  {
    hide TurnAt, MarkerBytes;
    if |items| == 0 {
    } else {
      var item, rest := items[0], ItemsBytes(items[1..], tail);
      assert GoodItem(item);
      WalkItems(items[1..], tail);
      MarkerFirst(item, rest);
      FillIsSkipped(item.fill, MarkerBytes(item) + rest);
      if item.Alone? {
        AloneIsSkipped(item, rest);
      } else {
        HeadedFrame(item, rest);
        HeadedExif(item, rest);
      }
      ExifSplit(items);
    }
  }

  lemma ExifSplit(items: seq<Item>)
    requires |items| > 0
    ensures HasExifSegment(items) <==> IsExif(items[0]) || HasExifSegment(items[1..])
  {
    if k :| 0 <= k < |items| && IsExif(items[k]) && k > 0 { assert IsExif(items[1..][k - 1]); }
    if k :| 0 <= k < |items| - 1 && IsExif(items[1..][k]) { assert IsExif(items[k + 1]); }
  }

  lemma MarkerFirst(item: Item, rest: seq<Byte>)
    requires GoodItem(item)
    ensures |MarkerBytes(item) + rest| >= 2 && (MarkerBytes(item) + rest)[0] == 0xFF
  {
  }

  lemma WalkScan(l: Layout)
    ensures FrameFrom(ScanBytes(l)) == None && !ExifFrom(ScanBytes(l)) && |ScanBytes(l)| >= 2 && ScanBytes(l)[0] == 0xFF
  {
    var b := [0xFF, 0xDA] + l.scan;
    FillIsSkipped(l.fill, b);
    if |b| > 3 { assert TurnAt(b) == Stop; }
  }

  /**
   * On every laid-out file the header reader returns the first frame's dimensions, and `hasExif` is true
   * exactly when there is an APP1 Exif segment.
   */
  lemma LaidOutFilesAreReadRight(l: Layout)
    requires GoodItems(l.items)
    ensures FrameFrom(Drop(LayoutBytes(l), 2)) == FirstFrame(l.items)
    ensures ExifFrom(Drop(LayoutBytes(l), 2)) <==> HasExifSegment(l.items)
    ensures SniffImageType(LayoutBytes(l)) == Some(Jpeg)
  {
    WalkScan(l);
    WalkItems(l.items, ScanBytes(l));
    assert Drop(LayoutBytes(l), 2) == ItemsBytes(l.items, ScanBytes(l));
    assert LayoutBytes(l)[0] == 0xFF && LayoutBytes(l)[1] == 0xD8;
  }

  // ------------------------------------------------------------------ //
  // TEM
  // ------------------------------------------------------------------ //

  const TEM: Byte := 0x01

  predicate IsTem(item: Item) {
    item.Alone? && item.marker == TEM
  }

  /** Good items, and TEM, which T.81 (table B.1) lets stand alone. */
  ghost predicate GoodOrTem(items: seq<Item>) {
    forall k :: 0 <= k < |items| ==> GoodItem(items[k]) || IsTem(items[k])
  }

  /** Where the first TEM is. */
  function FirstTem(items: seq<Item>): (n: nat)
    ensures n <= |items| && (n < |items| ==> IsTem(items[n]))
    ensures forall k :: 0 <= k < n ==> !IsTem(items[k])
  {
    if |items| == 0 || IsTem(items[0]) then 0 else 1 + FirstTem(items[1..])
  }

  /** The bytes after an item of a layout. */
  function BytesAfter(l: Layout, n: nat): seq<Byte>
    requires n < |l.items|
    requires forall k :: 0 <= k < |l.items| && l.items[k].Headed? ==> |l.items[k].payload| + 2 < 0x1_0000
  {
    ItemsBytes(l.items[n + 1..], ScanBytes(l))
  }

  lemma {:induction false} ItemsSplit(items: seq<Item>, n: nat, tail: seq<Byte>)
    requires n <= |items| && GoodOrTem(items)
    ensures ItemsBytes(items, tail) == ItemsBytes(items[..n], ItemsBytes(items[n..], tail))
    ensures FirstFrame(items) == if FirstFrame(items[..n]).Some? then FirstFrame(items[..n]) else FirstFrame(items[n..])
    decreases n
  {
    hide MarkerBytes, Fill;
    if n == 0 {
      assert items[0..] == items && items[..0] == [];
    } else {
      ItemsSplit(items[1..], n - 1, tail);
      assert items[1..][..n - 1] == items[..n][1..] && items[1..][n - 1..] == items[n..];
    }
  }

  lemma ItemsStart(items: seq<Item>, l: Layout)
    requires GoodOrTem(items)
    ensures var b := ItemsBytes(items, ScanBytes(l)); |b| >= 2 && b[0] == 0xFF
  {
    WalkScan(l);
    if |items| > 0 {
      var marker := MarkerBytes(items[0]) + ItemsBytes(items[1..], ScanBytes(l));
      assert marker[0] == 0xFF && |marker| >= 2;
      FillIsSkipped(items[0].fill, marker);
    }
  }

  /** At TEM the walkers read the next two bytes, 0xFF and the one after it, as a length, and leap that far. */
  lemma TemLeaps(item: Item, rest: seq<Byte>)
    requires IsTem(item) && |rest| >= 2 && rest[0] == 0xFF
    ensures var b := Fill(item.fill) + (MarkerBytes(item) + rest);
            && FrameFrom(b) == FrameFrom(Drop(rest, 0xFF00 + rest[1] as int))
            && ExifFrom(b) == ExifFrom(Drop(rest, 0xFF00 + rest[1] as int))
            && |b| >= 2 && b[0] == 0xFF
  {
    hide FrameFrom, ExifFrom, Fill;
    var b := MarkerBytes(item) + rest;
    FillIsSkipped(item.fill, b);
    TemTurn(rest);
    hide Drop, TurnAt, MarkerBytes;
    FrameTurn(b);
    ExifTurn(b);
    DropDrop(b, 2, 0xFF00 + rest[1] as int);
  }

  lemma TemTurn(rest: seq<Byte>)
    requires |rest| >= 2 && rest[0] == 0xFF
    ensures var b := [0xFF, TEM] + rest;
            TurnAt(b) == Segment(TEM, 0xFF00 + rest[1] as int) && Drop(b, 2) == rest
  {
  }

  /**
   * What the walkers make of any laid-out file with TEM markers in it: what comes before the first of
   * them is read right, and what comes after it only from where the leap lands.
   */
  lemma CutAtTem(l: Layout)
    requires GoodOrTem(l.items) && FirstTem(l.items) < |l.items|
    ensures var n := FirstTem(l.items); var rest := BytesAfter(l, n);
            && |rest| >= 2
            && FrameFrom(Drop(LayoutBytes(l), 2))
               == (if FirstFrame(l.items[..n]).Some? then FirstFrame(l.items[..n])
                   else FrameFrom(Drop(rest, 0xFF00 + rest[1] as int)))
            && ExifFrom(Drop(LayoutBytes(l), 2))
               == (HasExifSegment(l.items[..n]) || ExifFrom(Drop(rest, 0xFF00 + rest[1] as int)))
  {
    hide FrameFrom, ExifFrom, FirstFrame, HasExifSegment, MarkerBytes, Fill, ScanBytes, Drop;
    var n := FirstTem(l.items);
    var tem, rest := l.items[n], BytesAfter(l, n);
    DropSoi(l);
    ItemsSplit(l.items, n, ScanBytes(l));
    ItemsStart(l.items[n + 1..], l);
    assert l.items[n..][0] == tem && l.items[n..][1..] == l.items[n + 1..];
    assert ItemsBytes(l.items[n..], ScanBytes(l)) == Fill(tem.fill) + (MarkerBytes(tem) + rest);
    TemLeaps(tem, rest);
    GoodBefore(l.items);
    hide ItemsBytes;
    WalkItems(l.items[..n], ItemsBytes(l.items[n..], ScanBytes(l)));
  }

  lemma DropSoi(l: Layout)
    requires GoodOrTem(l.items)
    ensures Drop(LayoutBytes(l), 2) == ItemsBytes(l.items, ScanBytes(l))
  {
  }

  lemma GoodBefore(items: seq<Item>)
    requires GoodOrTem(items)
    ensures GoodItems(items[..FirstTem(items)])
  {
    forall k | 0 <= k < FirstTem(items) ensures GoodItem(items[k]) { assert !IsTem(items[k]); }
  }

  /** A leap past the end finds nothing. */
  lemma LeapsOffTheEnd(rest: seq<Byte>)
    requires 2 <= |rest| <= 0xFF03
    ensures FrameFrom(Drop(rest, 0xFF00 + rest[1] as int)) == None && !ExifFrom(Drop(rest, 0xFF00 + rest[1] as int))
  {
  }

  /** At most 65,283 bytes follow the first TEM: any small file, and any with no TEM. */
  predicate ShortAfterTem(l: Layout)
    requires forall k :: 0 <= k < |l.items| && l.items[k].Headed? ==> |l.items[k].payload| + 2 < 0x1_0000
  {
    FirstTem(l.items) < |l.items| ==> |BytesAfter(l, FirstTem(l.items))| <= 0xFF03
  }

  /**
   * Whatever its length, a file is read right when its first frame header comes before any TEM. When
   * few enough bytes follow the first TEM, that and the lack of a frame header are the only ways: the
   * dimensions are right exactly when no TEM precedes the frame header, and `hasExif` exactly when
   * some Exif segment, if there is one, comes before the TEM.
   */
  lemma ReadRightIffNoTemBefore(l: Layout)
    requires GoodOrTem(l.items)
    ensures FirstFrame(l.items[..FirstTem(l.items)]).Some? ==> FrameFrom(Drop(LayoutBytes(l), 2)) == FirstFrame(l.items)
    ensures ShortAfterTem(l) ==>
              (FrameFrom(Drop(LayoutBytes(l), 2)) == FirstFrame(l.items)
               <==> FirstFrame(l.items).None? || FirstFrame(l.items[..FirstTem(l.items)]).Some?)
    ensures ShortAfterTem(l) ==>
              ((ExifFrom(Drop(LayoutBytes(l), 2)) <==> HasExifSegment(l.items))
               <==> !HasExifSegment(l.items) || HasExifSegment(l.items[..FirstTem(l.items)]))
  {
    hide FrameFrom, ExifFrom, FirstFrame, HasExifSegment, LayoutBytes, ItemsBytes, Drop;
    var n := FirstTem(l.items);
    GoodBefore(l.items);
    if n == |l.items| {
      assert l.items[..n] == l.items;
      LaidOutFilesAreReadRight(l);
    } else {
      ExifBefore(l.items, n);
      CutAtTem(l);
      ItemsSplit(l.items, n, ScanBytes(l));
      if ShortAfterTem(l) { LeapsOffTheEnd(BytesAfter(l, n)); }
    }
  }

  lemma ExifBefore(items: seq<Item>, n: nat)
    requires n <= |items|
    ensures HasExifSegment(items[..n]) ==> HasExifSegment(items)
  {
    if k :| 0 <= k < n && IsExif(items[..n][k]) { assert IsExif(items[k]); }
  }

  // A complete grey picture of 8 by 8: quantiser, baseline frame, two Huffman tables, one coded block, EOI.

  const QUANTISER := Headed(0, 0xDB, [0] + seq(64, _ => 1 as Byte))
  const BASELINE_FRAME := Headed(0, 0xC0, [8, 0, 8, 0, 8, 1, 1, 0x11, 0])
  const DC_TABLE := Headed(0, 0xC4, [0x00, 1] + seq(16, _ => 0 as Byte))
  const AC_TABLE := Headed(0, 0xC4, [0x10, 1] + seq(16, _ => 0 as Byte))
  const GREY_SCAN: seq<Byte> := [0, 8, 1, 1, 0, 0, 0x3F, 0, 0x3F, 0xFF, 0xD9]

  lemma GreyTables(tail: seq<Byte>)
    ensures var tables := [QUANTISER, BASELINE_FRAME, DC_TABLE, AC_TABLE];
            && GoodItems(tables) && FirstFrame(tables) == Some(ImageHeader(Jpeg, 8, 8))
            && |ItemsBytes(tables, tail)| == 126 + |tail|
  {
    var tables := [QUANTISER, BASELINE_FRAME, DC_TABLE, AC_TABLE];
    assert GoodItem(QUANTISER) && GoodItem(BASELINE_FRAME) && GoodItem(DC_TABLE) && GoodItem(AC_TABLE);
    assert tables[1..] == [BASELINE_FRAME, DC_TABLE, AC_TABLE];
    assert tables[1..][1..] == [DC_TABLE, AC_TABLE] && tables[1..][1..][1..] == [AC_TABLE];
    assert tables[1..][1..][1..][1..] == [];
    assert FirstFrame(tables) == FirstFrame(tables[1..]);
    assert |ItemsBytes([AC_TABLE], tail)| == 22 + |tail|;
    assert |ItemsBytes([DC_TABLE, AC_TABLE], tail)| == 44 + |tail|;
    assert |ItemsBytes([BASELINE_FRAME, DC_TABLE, AC_TABLE], tail)| == 57 + |tail|;
  }

  /** With TEM before the tables the frame header is there, and the reader reports none. */
  lemma TemHidesTheFrame(l: Layout)
    requires l == Layout([Alone(0, TEM), QUANTISER, BASELINE_FRAME, DC_TABLE, AC_TABLE], 0, GREY_SCAN)
    ensures GoodOrTem(l.items) && EndsWith(l.scan, JPEG_EOI)
    ensures FirstFrame(l.items) == Some(ImageHeader(Jpeg, 8, 8))
    ensures FrameFrom(Drop(LayoutBytes(l), 2)) == None
  {
    var tables := [QUANTISER, BASELINE_FRAME, DC_TABLE, AC_TABLE];
    GreyTables(ScanBytes(l));
    assert l.items[1..] == tables && l.items[..0] == [];
    assert FirstTem(l.items) == 0 && FirstFrame(l.items) == FirstFrame(tables);
    forall k | 0 <= k < |l.items| ensures GoodItem(l.items[k]) || IsTem(l.items[k]) {
      if k > 0 { assert l.items[k] == tables[k - 1] && GoodItem(tables[k - 1]); }
    }
    hide FrameFrom, ExifFrom, GoodItem, FirstFrame, ItemsBytes;
    CutAtTem(l);
    LeapsOffTheEnd(BytesAfter(l, 0));
  }

  // ------------------------------------------------------------------ //
  // PNG
  // ------------------------------------------------------------------ //

  function PngHeader(bytes: seq<Byte>): Option<ImageHeader> {
    if |bytes| < 24 then None
    else if Word32(bytes, 12) != 0x4948_4452 then None
    else Some(ImageHeader(Png, Word32(bytes, 16), Word32(bytes, 20)))
  }

  /** A chunk name as the word the file stores; longer names would wrap. */
  method ChunkType(name: seq<Byte>) returns (word: nat)
    ensures |name| == 4 ==> word == Word32(name, 0)
  {
    word := 0;
    for i := 0 to |name|
      invariant word < 0x1_0000_0000
      invariant i == 0 ==> word == 0
      invariant i == 1 ==> word == name[0] as int
      invariant i == 2 ==> word == Word16(name, 0)
      invariant i == 3 ==> word == Word16(name, 0) * 256 + name[2] as int
      invariant i == 4 ==> word == Word32(name, 0)
    {
      word := (word * 256 + name[i] as int) % 0x1_0000_0000;
    }
  }

  /** Whether a chunk of this type is met from here on. */
  predicate ChunkFrom(b: seq<Byte>, wanted: nat)
    decreases |b|
  {
    && |b| >= 8
    && (|| Word32(b, 4) == wanted
        || (12 + Word32(b, 0) <= |b| && ChunkFrom(Drop(b, 12 + Word32(b, 0)), wanted)))
  }

  lemma ChunkTurn(b: seq<Byte>, wanted: nat)
    requires |b| >= 8
    ensures ChunkFrom(b, wanted)
            == (Word32(b, 4) == wanted || (12 + Word32(b, 0) <= |b| && ChunkFrom(Drop(b, 12 + Word32(b, 0)), wanted)))
  {
    hide Word32, Drop;
  }

  lemma ChunkStep(bytes: seq<Byte>, offset: nat, wanted: nat)
    requires offset + 8 <= |bytes|
    ensures ChunkFrom(Drop(bytes, offset), wanted)
            == (|| Word32(bytes, offset + 4) == wanted
                || (offset + 12 + Word32(bytes, offset) <= |bytes|
                    && ChunkFrom(Drop(bytes, offset + 12 + Word32(bytes, offset)), wanted)))
  {
    hide Word32;
    WordsInPlace(bytes, offset, 0);
    WordsInPlace(bytes, offset, 4);
    ChunkTurn(Drop(bytes, offset), wanted);
    DropDrop(bytes, offset, 12 + Word32(bytes, offset));
    hide ChunkFrom;
  }

  method FindPngTextChunk(bytes: seq<Byte>, name: seq<Byte>) returns (found: bool)
    requires |name| == 4
    ensures found == ChunkFrom(Drop(bytes, 8), Word32(name, 0))
  {
    hide Word32, ChunkFrom, Drop;
    var wanted := ChunkType(name);
    var offset: nat := 8;
    while offset + 8 <= |bytes|
      invariant ChunkFrom(Drop(bytes, 8), wanted) == ChunkFrom(Drop(bytes, offset), wanted)
      decreases |bytes| - offset
    {
      var length := Word32(bytes, offset);
      ChunkStep(bytes, offset, wanted);
      if Word32(bytes, offset + 4) == wanted { return true; }
      var next := offset + 12 + length;
      if next <= offset || next > |bytes| { return false; }
      offset := next;
    }
    NoChunkLeft(bytes, offset, wanted);
    found := false;
  }

  lemma NoChunkLeft(bytes: seq<Byte>, offset: nat, wanted: nat)
    requires offset + 8 > |bytes|
    ensures !ChunkFrom(Drop(bytes, offset), wanted)
  {
  }

  datatype Chunk = Chunk(kind: seq<Byte>, data: seq<Byte>, crc: seq<Byte>)

  predicate GoodChunk(c: Chunk) {
    |c.kind| == 4 && |c.crc| == 4 && |c.data| < 0x8000_0000
  }

  ghost predicate GoodChunks(chunks: seq<Chunk>) {
    forall k :: 0 <= k < |chunks| ==> GoodChunk(chunks[k])
  }

  function ChunkBytes(c: Chunk): (b: seq<Byte>)
    requires GoodChunk(c)
    ensures |b| == 12 + |c.data|
  {
    Bytes32(|c.data|) + (c.kind + (c.data + c.crc))
  }

  function ChunksBytes(chunks: seq<Chunk>): seq<Byte>
    requires forall k :: 0 <= k < |chunks| ==> GoodChunk(chunks[k])
  {
    if |chunks| == 0 then [] else ChunkBytes(chunks[0]) + ChunksBytes(chunks[1..])
  }

  lemma ChunkInPlace(c: Chunk, rest: seq<Byte>)
    requires GoodChunk(c)
    ensures var b := ChunkBytes(c) + rest;
            && Word32(b, 0) == |c.data| && b[4..8] == c.kind && b[12 + |c.data|..] == rest
            && b[8..8 + |c.data|] == c.data
  {
    var b := ChunkBytes(c) + rest;
    assert b == Bytes32(|c.data|) + (c.kind + (c.data + (c.crc + rest)));
    FourBytes(b, 0);
    assert b[0..4] == Bytes32(|c.data|)[0..4];
    WordsDetermineBytes(b, 0, Bytes32(|c.data|), 0);
  }

  ghost predicate HasChunk(chunks: seq<Chunk>, kind: seq<Byte>) {
    exists k :: 0 <= k < |chunks| && chunks[k].kind == kind
  }

  /** The walk visits every chunk of a well-formed file and no other bytes. */
  lemma {:induction false} WalkChunks(chunks: seq<Chunk>, kind: seq<Byte>)
    requires GoodChunks(chunks) && |kind| == 4
    ensures ChunkFrom(ChunksBytes(chunks), Word32(kind, 0)) <==> HasChunk(chunks, kind)
    decreases |chunks|
  {
    hide Word32, ChunkBytes;
    if |chunks| == 0 {
    } else {
      var c, rest := chunks[0], ChunksBytes(chunks[1..]);
      var b := ChunksBytes(chunks);
      assert GoodChunk(c);
      ChunkInPlace(c, rest);
      WordsDetermineBytes(b, 4, kind, 0);
      assert kind[0..4] == kind;
      WalkChunks(chunks[1..], kind);
      ChunkSplit(chunks, kind);
    }
  }

  lemma ChunkSplit(chunks: seq<Chunk>, kind: seq<Byte>)
    requires |chunks| > 0
    ensures HasChunk(chunks, kind) <==> chunks[0].kind == kind || HasChunk(chunks[1..], kind)
  {
    if k :| 0 <= k < |chunks| && chunks[k].kind == kind && k > 0 { assert chunks[1..][k - 1].kind == kind; }
    if k :| 0 <= k < |chunks| - 1 && chunks[1..][k].kind == kind { assert chunks[k + 1].kind == kind; }
  }

  function PngBytes(chunks: seq<Chunk>): seq<Byte>
    requires forall k :: 0 <= k < |chunks| ==> GoodChunk(chunks[k])
  {
    [0x89, 0x50, 0x4E, 0x47, 0x0D, 0x0A, 0x1A, 0x0A] + ChunksBytes(chunks)
  }

  /**
   * RFC 2083: the first chunk is IHDR and starts with width and height; `hasExif` is true exactly when
   * there is an eXIf chunk.
   */
  lemma PngFilesAreReadRight(chunks: seq<Chunk>)
    requires GoodChunks(chunks) && |chunks| > 0 && |chunks[0].data| >= 8
    ensures PngHeader(PngBytes(chunks))
            == if chunks[0].kind != [0x49, 0x48, 0x44, 0x52] then None
               else Some(ImageHeader(Png, Word32(chunks[0].data, 0), Word32(chunks[0].data, 4)))
    ensures ChunkFrom(Drop(PngBytes(chunks), 8), Word32(EXIF_CHUNK, 0)) <==> HasChunk(chunks, [0x65, 0x58, 0x49, 0x66])
    ensures SniffImageType(PngBytes(chunks)) == Some(Png)
  {
    hide Word32, ChunkBytes, ChunkFrom;
    var c := chunks[0];
    var b := ChunksBytes(chunks);
    var file := PngBytes(chunks);
    WalkChunks(chunks, EXIF_CHUNK);
    assert Drop(file, 8) == b;
    ChunkInPlace(c, ChunksBytes(chunks[1..]));
    assert file[12..16] == b[4..8] == c.kind;
    WordsDetermineBytes(file, 12, IHDR, 0);
    assert IHDR[0..4] == IHDR && Word32(IHDR, 0) == 0x4948_4452 by { IhdrWord(); }
    assert file[16..20] == b[8..12] == c.data[0..4];
    assert file[20..24] == b[12..16] == c.data[4..8];
    WordsDetermineBytes(file, 16, c.data, 0);
    WordsDetermineBytes(file, 20, c.data, 4);
  }

  lemma IhdrWord()
    ensures Word32(IHDR, 0) == 0x4948_4452
  {
  }

  // ------------------------------------------------------------------ //
  // The inspection
  // ------------------------------------------------------------------ //

  const MAX_PHOTO_BYTES: nat := 10 * 1024 * 1024
  const MAX_PHOTO_DIMENSION: nat := 8000
  const MAX_PHOTO_PIXELS: nat := 24_000_000
  const MIN_PHOTO_DIMENSION: nat := 200

  datatype Rejection =
    | NotAnImage | TypeMismatch | TooLarge | TooSmall | DimensionsTooLarge | TooManyPixels | Malformed | TrailingData

  function ReadImageHeader(bytes: seq<Byte>): Option<ImageHeader> {
    match SniffImageType(bytes)
    case Some(Png) => PngHeader(bytes)
    case Some(Jpeg) => FrameFrom(Drop(bytes, 2))
    case None => None
  }

  predicate EndsCleanly(bytes: seq<Byte>) {
    match SniffImageType(bytes)
    case Some(Png) => EndsWith(bytes, PNG_IEND)
    case Some(Jpeg) => EndsWith(bytes, JPEG_EOI)
    case None => false
  }

  /** Is there EXIF in here? */
  predicate HasExif(bytes: seq<Byte>) {
    match SniffImageType(bytes)
    case Some(Jpeg) => ExifFrom(Drop(bytes, 2))
    case Some(Png) => ChunkFrom(Drop(bytes, 8), Word32(EXIF_CHUNK, 0))
    case None => false
  }

  function PixelCount(h: ImageHeader): int {
    h.width * h.height
  }

  function Inspected(bytes: seq<Byte>, declared: Option<ImageType>, maxBytes: nat): Result<ImageHeader, Rejection> {
    if |bytes| > maxBytes then Err(TooLarge)
    else
      var kind := SniffImageType(bytes);
      if kind == None then Err(NotAnImage)
      else if declared != None && declared != kind then Err(TypeMismatch)
      else match ReadImageHeader(bytes)
        case None => Err(Malformed)
        case Some(h) =>
          if h.width < MIN_PHOTO_DIMENSION || h.height < MIN_PHOTO_DIMENSION then Err(TooSmall)
          else if h.width > MAX_PHOTO_DIMENSION || h.height > MAX_PHOTO_DIMENSION then Err(DimensionsTooLarge)
          else if PixelCount(h) > MAX_PHOTO_PIXELS then Err(TooManyPixels)
          else if !EndsCleanly(bytes) then Err(TrailingData)
          else Ok(h)
  }

  method InspectImage(bytes: seq<Byte>, declared: Option<ImageType>, maxBytes: nat := MAX_PHOTO_BYTES)
    returns (r: Result<ImageHeader, Rejection>)
    ensures r == Inspected(bytes, declared, maxBytes)
  {
    hide EndsCleanly, FrameFrom, PngHeader;
    if |bytes| > maxBytes { return Err(TooLarge); }
    var kind := SniffImageType(bytes);
    if kind == None { return Err(NotAnImage); }
    if declared != None && declared != kind { return Err(TypeMismatch); }
    var header: Option<ImageHeader>;
    if kind == Some(Png) { header := PngHeader(bytes); } else { header := ReadJpegHeader(bytes); }
    if header == None { return Err(Malformed); }
    var h := header.value;
    if h.width < MIN_PHOTO_DIMENSION || h.height < MIN_PHOTO_DIMENSION { return Err(TooSmall); }
    if h.width > MAX_PHOTO_DIMENSION || h.height > MAX_PHOTO_DIMENSION { return Err(DimensionsTooLarge); }
    if PixelCount(h) > MAX_PHOTO_PIXELS { return Err(TooManyPixels); }
    if !EndsCleanly(bytes) { return Err(TrailingData); }
    r := Ok(h);
  }

  predicate WithinPhotoLimits(h: ImageHeader) {
    200 <= h.width <= 8000 && 200 <= h.height <= 8000 && PixelCount(h) <= 24_000_000
  }

  lemma EndOfEnd(bytes: seq<Byte>, end: seq<Byte>, suffix: seq<Byte>)
    requires |suffix| <= |end| <= |bytes| && bytes[|bytes| - |end|..] == end
    ensures EndsWith(bytes, suffix) <==> EndsWith(end, suffix)
  {
    assert bytes[|bytes| - |suffix|..] == end[|end| - |suffix|..];
  }

  lemma ScanEnd(scan: seq<Byte>)
    ensures EndsWith([0xFF, 0xDA] + scan, JPEG_EOI) <==> EndsWith(scan, JPEG_EOI)
  {
    var tail := [0xFF, 0xDA] + scan;
    if |scan| >= 2 {
      assert tail[|tail| - 2..] == scan[|scan| - 2..];
    } else {
      assert tail[|tail| - 2..][if |scan| == 0 then 1 else 0] == 0xDA;
    }
  }

  lemma LayoutEnd(l: Layout)
    requires GoodItems(l.items)
    ensures EndsWith(LayoutBytes(l), JPEG_EOI) <==> EndsWith(l.scan, JPEG_EOI)
  {
    ItemsEnd(l.items, l);
    var b := LayoutBytes(l);
    var tail := [0xFF, 0xDA] + l.scan;
    hide ItemsBytes, ScanBytes, EndsWith;
    assert b[|b| - |tail|..] == tail;
    hide LayoutBytes;
    EndOfEnd(b, tail, JPEG_EOI);
    ScanEnd(l.scan);
  }

  lemma {:induction false} ItemsEnd(items: seq<Item>, l: Layout)
    requires GoodItems(items)
    ensures var b := ItemsBytes(items, ScanBytes(l)); var tail := [0xFF, 0xDA] + l.scan;
            |b| >= |tail| && b[|b| - |tail|..] == tail
    decreases |items|
  {
    hide MarkerBytes;
    if |items| == 0 {
    } else {
      assert GoodItem(items[0]);
      ItemsEnd(items[1..], l);
      hide Fill, ScanBytes;
      var rest := ItemsBytes(items[1..], ScanBytes(l));
      var front := Fill(items[0].fill) + MarkerBytes(items[0]);
      assert ItemsBytes(items, ScanBytes(l)) == front + rest;
    }
  }

  /**
   * A laid-out JPEG is accepted exactly when its first frame header states dimensions within the
   * limits, it is small enough, it was declared a JPEG (or not declared) and its scan ends in EOI.
   */
  lemma LaidOutJpegAcceptedIff(l: Layout, declared: Option<ImageType>, maxBytes: nat, h: ImageHeader)
    requires GoodItems(l.items)
    ensures Inspected(LayoutBytes(l), declared, maxBytes) == Ok(h)
            <==> && |LayoutBytes(l)| <= maxBytes && declared != Some(Png)
                 && FirstFrame(l.items) == Some(h) && WithinPhotoLimits(h) && EndsWith(l.scan, [0xFF, 0xD9])
    ensures HasExif(LayoutBytes(l)) <==> HasExifSegment(l.items)
  {
    hide LayoutBytes, EndsWith, FrameFrom, ExifFrom, HasExifSegment, FirstFrame, PixelCount;
    LaidOutFilesAreReadRight(l);
    LayoutEnd(l);
    var bytes := LayoutBytes(l);
    assert ReadImageHeader(bytes) == FirstFrame(l.items);
    assert EndsCleanly(bytes) == EndsWith(l.scan, JPEG_EOI);
    assert SniffImageType(bytes) == Some(Jpeg);
    hide SniffImageType, ReadImageHeader, EndsCleanly;
    assert declared.Some? ==> declared.value == Jpeg || declared.value == Png;
  }

  /** Why a laid-out JPEG is turned away: the first of these that applies. */
  lemma LaidOutJpegAnswered(l: Layout, declared: Option<ImageType>, maxBytes: nat)
    requires GoodItems(l.items)
    ensures Inspected(LayoutBytes(l), declared, maxBytes)
            == if |LayoutBytes(l)| > maxBytes then Err(TooLarge)
               else if declared == Some(Png) then Err(TypeMismatch)
               else match FirstFrame(l.items)
                 case None => Err(Malformed)
                 case Some(h) =>
                   if h.width < 200 || h.height < 200 then Err(TooSmall)
                   else if h.width > 8000 || h.height > 8000 then Err(DimensionsTooLarge)
                   else if h.width * h.height > 24_000_000 then Err(TooManyPixels)
                   else if !EndsWith(l.scan, [0xFF, 0xD9]) then Err(TrailingData)
                   else Ok(h)
  {
    hide LayoutBytes, EndsWith, FrameFrom, ExifFrom, FirstFrame;
    LaidOutFilesAreReadRight(l);
    LayoutEnd(l);
    var bytes := LayoutBytes(l);
    assert ReadImageHeader(bytes) == FirstFrame(l.items);
    assert EndsCleanly(bytes) == EndsWith(l.scan, JPEG_EOI);
    assert SniffImageType(bytes) == Some(Jpeg);
    hide SniffImageType, ReadImageHeader, EndsCleanly;
    assert declared.Some? ==> declared.value == Jpeg || declared.value == Png;
  }

  lemma {:induction false} ChunksEnd(chunks: seq<Chunk>)
    requires GoodChunks(chunks) && |chunks| > 0
    ensures var last := ChunkBytes(chunks[|chunks| - 1]); var b := ChunksBytes(chunks);
            |b| >= |last| >= 12 && b[|b| - |last|..] == last
    decreases |chunks|
  {
    var b := ChunksBytes(chunks);
    hide ChunkBytes;
    assert GoodChunk(chunks[|chunks| - 1]);
    if |chunks| == 1 {
      assert ChunksBytes(chunks[1..]) == [];
      assert b == ChunkBytes(chunks[0]) + [];
    } else {
      assert chunks[1..][|chunks| - 2] == chunks[|chunks| - 1];
      ChunksEnd(chunks[1..]);
    }
  }

  /** IEND with no data and its own check sum: the twelve bytes a PNG ends with. */
  const END_CHUNK := Chunk([0x49, 0x45, 0x4E, 0x44], [], [0xAE, 0x42, 0x60, 0x82])

  lemma EndChunkBytes()
    ensures ChunkBytes(END_CHUNK) == PNG_IEND
  {
    assert Bytes32(0) == [0, 0, 0, 0];
  }

  lemma EmptyChunkIsTheEnd(c: Chunk)
    requires GoodChunk(c) && |c.data| == 0
    ensures EndsWith(ChunkBytes(c), PNG_IEND) <==> c == END_CHUNK
  {
    var b := ChunkBytes(c);
    assert b == Bytes32(0) + (c.kind + c.crc);
    assert Bytes32(0) == [0, 0, 0, 0];
    assert b[0..] == b;
    assert PNG_IEND[4..8] == END_CHUNK.kind && PNG_IEND[8..12] == END_CHUNK.crc;
    assert b[4..8] == c.kind && b[8..12] == c.crc;
    if c == END_CHUNK { assert b == PNG_IEND; }
  }

  lemma PngEnd(chunks: seq<Chunk>)
    requires GoodChunks(chunks) && |chunks| > 0
    ensures EndsWith(PngBytes(chunks), PNG_IEND) <==> EndsWith(ChunkBytes(chunks[|chunks| - 1]), PNG_IEND)
  {
    ChunksEnd(chunks);
    var last, file := ChunkBytes(chunks[|chunks| - 1]), PngBytes(chunks);
    hide ChunkBytes, ChunksBytes, EndsWith;
    assert file[|file| - |last|..] == last;
    EndOfEnd(file, last, PNG_IEND);
  }

  /**
   * A chunked PNG is accepted exactly when it is small enough, was declared a PNG (or not declared),
   * starts with IHDR stating dimensions within the limits, and its last chunk ends in the twelve bytes
   * of IEND: of chunks without data, IEND itself and no other.
   */
  lemma LaidOutPngAcceptedIff(chunks: seq<Chunk>, declared: Option<ImageType>, maxBytes: nat, h: ImageHeader)
    requires GoodChunks(chunks) && |chunks| > 0 && |chunks[0].data| >= 8
    ensures var last := chunks[|chunks| - 1];
            && (Inspected(PngBytes(chunks), declared, maxBytes) == Ok(h)
                <==> && |PngBytes(chunks)| <= maxBytes && declared != Some(Jpeg)
                     && chunks[0].kind == [0x49, 0x48, 0x44, 0x52]
                     && h == ImageHeader(Png, Word32(chunks[0].data, 0), Word32(chunks[0].data, 4))
                     && WithinPhotoLimits(h) && EndsWith(ChunkBytes(last), ChunkBytes(END_CHUNK)))
            && (|last.data| == 0 ==> (EndsWith(ChunkBytes(last), ChunkBytes(END_CHUNK)) <==> last == END_CHUNK))
    ensures HasExif(PngBytes(chunks)) <==> HasChunk(chunks, [0x65, 0x58, 0x49, 0x66])
  {
    hide PngBytes, EndsWith, PngHeader, ChunkFrom, HasChunk, PixelCount, Word32, FrameFrom;
    EndChunkBytes();
    PngFilesAreReadRight(chunks);
    PngEnd(chunks);
    if |chunks[|chunks| - 1].data| == 0 { EmptyChunkIsTheEnd(chunks[|chunks| - 1]); }
    var bytes := PngBytes(chunks);
    assert ReadImageHeader(bytes) == PngHeader(bytes);
    assert EndsCleanly(bytes) == EndsWith(bytes, PNG_IEND);
    hide SniffImageType, ReadImageHeader, EndsCleanly, GoodChunks;
    assert declared.Some? ==> declared.value == Jpeg || declared.value == Png;
  }

  /** Why a chunked PNG is turned away: the first of these that applies. */
  lemma LaidOutPngAnswered(chunks: seq<Chunk>, declared: Option<ImageType>, maxBytes: nat)
    requires GoodChunks(chunks) && |chunks| > 0 && |chunks[0].data| >= 8
    ensures var width, height := Word32(chunks[0].data, 0), Word32(chunks[0].data, 4);
            Inspected(PngBytes(chunks), declared, maxBytes)
            == if |PngBytes(chunks)| > maxBytes then Err(TooLarge)
               else if declared == Some(Jpeg) then Err(TypeMismatch)
               else if chunks[0].kind != [0x49, 0x48, 0x44, 0x52] then Err(Malformed)
               else if width < 200 || height < 200 then Err(TooSmall)
               else if width > 8000 || height > 8000 then Err(DimensionsTooLarge)
               else if width * height > 24_000_000 then Err(TooManyPixels)
               else if !EndsWith(ChunkBytes(chunks[|chunks| - 1]), ChunkBytes(END_CHUNK)) then Err(TrailingData)
               else Ok(ImageHeader(Png, width, height))
  {
    hide PngBytes, EndsWith, PngHeader, ChunkFrom, HasChunk, Word32, FrameFrom;
    EndChunkBytes();
    PngFilesAreReadRight(chunks);
    PngEnd(chunks);
    var bytes := PngBytes(chunks);
    assert ReadImageHeader(bytes) == PngHeader(bytes);
    assert EndsCleanly(bytes) == EndsWith(bytes, PNG_IEND);
    hide SniffImageType, ReadImageHeader, EndsCleanly, GoodChunks, ChunkBytes;
    assert declared.Some? ==> declared.value == Jpeg || declared.value == Png;
  }
}
