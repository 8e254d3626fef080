// encodeQuotedPrintable of pkg/email/smtp_service.go, against the decoding rules of section 6.7 of
// RFC 2045 (without the deletion of trailing white space of rule 3).
//
// A text is a sequence of Unicode code points, as Go ranges over a string; the encoder's index is
// the byte offset of a code point in UTF-8.
module QuotedPrintable {
  import opened LineLayout

  type Rune = r: int | 0 <= r < 0x110000
  type Byte = b: int | 0 <= b < 256

  const NEWLINE: Byte := 10
  const RETURN: Byte := 13
  const EQUALS: Byte := 61

  // ----- UTF-8 -----

  function Width(r: Rune): (w: nat)
    ensures 1 <= w <= 4
  {
    if r < 0x80 then 1 else if r < 0x800 then 2 else if r < 0x10000 then 3 else 4
  }

  function Continuation(x: nat): Byte { 0x80 + x % 64 }

  function Utf8(r: Rune): (s: seq<Byte>)
    ensures |s| == Width(r)
  {
    if r < 0x80 then [r]
    else if r < 0x800 then [0xC0 + r / 64, Continuation(r)]
    else if r < 0x10000 then [0xE0 + r / 4096, Continuation(r / 64), Continuation(r)]
    else [0xF0 + r / 262144, Continuation(r / 4096), Continuation(r / 64), Continuation(r)]
  }

  function Bytes(text: seq<Rune>): seq<Byte> {
    if text == [] then [] else Utf8(text[0]) + Bytes(text[1..])
  }

  predicate Ascii(text: seq<Rune>) {
    forall i :: 0 <= i < |text| ==> text[i] < 0x80
  }

  // ----- The encoder -----

  function HexDigit(d: int): Byte
    requires 0 <= d < 16
  {
    if d < 10 then 48 + d else 55 + d
  }

  function Hex(r: nat): (s: seq<Byte>)
    ensures |s| >= 1
    ensures forall i :: 0 <= i < |s| ==> IsHex(s[i])
  {
    if r < 16 then [HexDigit(r)] else Hex(r / 16) + [HexDigit(r % 16)]
  }

  // "=%02X"
  function Escape(r: Rune): seq<Byte> {
    [EQUALS] + (if r < 16 then [48] else []) + Hex(r)
  }

  predicate Literal(r: Rune) {
    32 <= r <= 126 && r != EQUALS
  }

  function EncodeRune(r: Rune): seq<Byte> {
    if r == NEWLINE then [RETURN, NEWLINE]
    else if Literal(r) then [r]
    else Escape(r)
  }

  // A soft line break after every 70th byte offset.
  predicate BreaksAfter(offset: nat) {
    offset > 0 && offset % 70 == 0
  }

  function SoftBreak(offset: nat): seq<Byte> {
    if BreaksAfter(offset) then [EQUALS, RETURN, NEWLINE] else []
  }

  function Chunk(r: Rune, offset: nat): seq<Byte> {
    EncodeRune(r) + SoftBreak(offset)
  }

  function EncodeFrom(text: seq<Rune>, offset: nat): seq<Byte> {
    if text == [] then []
    else Chunk(text[0], offset) + EncodeFrom(text[1..], offset + Width(text[0]))
  }

  function Encode(text: seq<Rune>): seq<Byte> {
    EncodeFrom(text, 0)
  }

  lemma Regroup(a: seq<Byte>, b: seq<Byte>, c: seq<Byte>)
    ensures a + (b + c) == a + b + c
  {
  }

  lemma {:induction false} EncodeMore(text: seq<Rune>, offset: nat, r: Rune)
    ensures EncodeFrom(text + [r], offset) ==
            EncodeFrom(text, offset) + Chunk(r, offset + |Bytes(text)|)
  {
    var more := text + [r];
    if text == [] {
      assert more == [r] && more[1..] == [];
      assert EncodeFrom(more[1..], offset + Width(r)) == [];
    } else {
      var next := offset + Width(text[0]);
      assert more[0] == text[0] && more[1..] == text[1..] + [r];
      EncodeMore(text[1..], next, r);
      assert offset + |Bytes(text)| == next + |Bytes(text[1..])|;
      Regroup(Chunk(text[0], offset), EncodeFrom(text[1..], next), Chunk(r, offset + |Bytes(text)|));
    }
  }

  lemma {:induction false} BytesMore(text: seq<Rune>, r: Rune)
    ensures Bytes(text + [r]) == Bytes(text) + Utf8(r)
  {
    if text == [] {
      assert text + [r] == [r] && Bytes([r][1..]) == [];
    } else {
      assert (text + [r])[1..] == text[1..] + [r];
      BytesMore(text[1..], r);
    }
  }

  lemma EncodeOneMore(text: seq<Rune>, i: nat)
    requires i < |text|
    ensures Encode(text[..i + 1]) == Encode(text[..i]) + Chunk(text[i], |Bytes(text[..i])|)
    ensures |Bytes(text[..i + 1])| == |Bytes(text[..i])| + Width(text[i])
  {
    assert text[..i + 1] == text[..i] + [text[i]];
    EncodeMore(text[..i], 0, text[i]);
    BytesMore(text[..i], text[i]);
  }

  method WriteRune(buffer: seq<Byte>, r: Rune) returns (result: seq<Byte>)
    ensures result == buffer + EncodeRune(r)
  {
    if r == NEWLINE {
      result := buffer + [RETURN, NEWLINE];
    } else if r < 32 || r > 126 || r == EQUALS {
      result := buffer + Escape(r);
    } else {
      result := buffer + [r];
    }
  }

  // The loop of encodeQuotedPrintable, appending to a buffer.
  method EncodeQuotedPrintable(text: seq<Rune>) returns (buffer: seq<Byte>)
    ensures buffer == Encode(text)
  {
    buffer := [];
    var offset := 0;
    for i := 0 to |text|
      invariant buffer == Encode(text[..i])
      invariant offset == |Bytes(text[..i])|
    {
      EncodeOneMore(text, i);
      ghost var before := buffer;
      buffer := WriteRune(buffer, text[i]);
      if offset > 0 && offset % 70 == 0 {
        buffer := buffer + [EQUALS, RETURN, NEWLINE];
      }
      assert buffer == before + Chunk(text[i], offset);
      offset := offset + Width(text[i]);
    }
    assert text[..|text|] == text;
  }

  // ----- The decoder of RFC 2045 -----

  predicate IsHex(b: Byte) {
    48 <= b <= 57 || 65 <= b <= 70
  }

  function HexValue(b: Byte): (d: int)
    requires IsHex(b)
    ensures 0 <= d < 16
  {
    if b <= 57 then b - 48 else b - 55
  }

  function Decode(s: seq<Byte>): seq<Byte>
    decreases |s|
  {
    if s == [] then []
    else if |s| >= 3 && s[0] == EQUALS && s[1] == RETURN && s[2] == NEWLINE then Decode(s[3..])
    else if |s| >= 3 && s[0] == EQUALS && IsHex(s[1]) && IsHex(s[2]) then
      [16 * HexValue(s[1]) + HexValue(s[2])] + Decode(s[3..])
    else if |s| >= 2 && s[0] == RETURN && s[1] == NEWLINE then [NEWLINE] + Decode(s[2..])
    else [s[0]] + Decode(s[1..])
  }

  lemma DecodeSoftBreak(offset: nat, s: seq<Byte>)
    ensures Decode(SoftBreak(offset) + s) == Decode(s)
  {
    if BreaksAfter(offset) {
      assert ([EQUALS, RETURN, NEWLINE] + s)[3..] == s;
    } else {
      assert SoftBreak(offset) + s == s;
    }
  }

  lemma AsciiEscape(r: Rune)
    requires r < 0x80
    ensures Escape(r) == [EQUALS, HexDigit(r / 16), HexDigit(r % 16)]
  {
    if r >= 16 { assert Hex(r) == Hex(r / 16) + [HexDigit(r % 16)]; }
  }

  lemma DecodePair(high: Byte, low: Byte, s: seq<Byte>)
    requires IsHex(high) && IsHex(low)
    ensures Decode([EQUALS, high, low] + s) == [16 * HexValue(high) + HexValue(low)] + Decode(s)
  {
    assert ([EQUALS, high, low] + s)[3..] == s;
  }

  lemma DecodeAsciiRune(r: Rune, s: seq<Byte>)
    requires r < 0x80
    ensures Decode(EncodeRune(r) + s) == [r] + Decode(s)
  {
    var t := EncodeRune(r) + s;
    if r == NEWLINE {
      assert t[2..] == s;
    } else if Literal(r) {
      assert t[1..] == s && t[0] == r;
    } else {
      AsciiEscape(r);
      DecodePair(HexDigit(r / 16), HexDigit(r % 16), s);
    }
  }

  lemma DecodeChunk(r: Rune, offset: nat, s: seq<Byte>)
    requires r < 0x80
    ensures Decode(Chunk(r, offset) + s) == [r] + Decode(s)
  {
    assert Chunk(r, offset) + s == EncodeRune(r) + (SoftBreak(offset) + s);
    DecodeAsciiRune(r, SoftBreak(offset) + s);
    DecodeSoftBreak(offset, s);
  }

  lemma {:induction false} AsciiRoundTrip(text: seq<Rune>, offset: nat)
    requires Ascii(text)
    ensures Decode(EncodeFrom(text, offset)) == Bytes(text)
  {
    if text != [] {
      AsciiRoundTrip(text[1..], offset + 1);
      DecodeChunk(text[0], offset, EncodeFrom(text[1..], offset + 1));
    }
  }

  // ----- Outside ASCII the round trip fails -----

  // The number of bytes above 0x7F.
  function High(s: seq<Byte>): nat {
    if s == [] then 0 else (if s[0] >= 0x80 then 1 else 0) + High(s[1..])
  }

  lemma {:induction false} HighConcat(a: seq<Byte>, b: seq<Byte>)
    ensures High(a + b) == High(a) + High(b)
  {
    if a == [] {
      assert a + b == b;
    } else {
      assert (a + b)[1..] == a[1..] + b;
      HighConcat(a[1..], b);
    }
  }

  function Foreign(text: seq<Rune>): nat {
    if text == [] then 0 else (if text[0] >= 0x80 then 1 else 0) + Foreign(text[1..])
  }

  lemma {:induction false} ForeignNone(text: seq<Rune>)
    ensures Foreign(text) == 0 <==> Ascii(text)
  {
    if text != [] {
      ForeignNone(text[1..]);
      assert forall i :: 0 < i < |text| ==> text[i] == text[1..][i - 1];
    }
  }

  // UTF-8 spends at least two high bytes on a foreign code point.
  lemma {:induction false} HighOfBytes(text: seq<Rune>)
    ensures High(Bytes(text)) >= 2 * Foreign(text)
  {
    if text != [] {
      HighOfBytes(text[1..]);
      HighConcat(Utf8(text[0]), Bytes(text[1..]));
      var u := Utf8(text[0]);
      if text[0] >= 0x80 {
        assert u[0] >= 0x80 && u[1] >= 0x80;
        assert High(u) == 1 + High(u[1..]) && u[1..][0] == u[1];
      }
    }
  }

  lemma {:induction false} DecodeDigits(digits: seq<Byte>, s: seq<Byte>)
    requires forall i :: 0 <= i < |digits| ==> IsHex(digits[i])
    ensures High(Decode(digits + s)) == High(Decode(s))
  {
    if digits == [] {
      assert digits + s == s;
    } else {
      var t := digits + s;
      assert t[0] == digits[0];
      assert t[1..] == digits[1..] + s;
      DecodeDigits(digits[1..], s);
      assert Decode(t) == [t[0]] + Decode(t[1..]);
    }
  }

  lemma DecodeEscape(h: seq<Byte>, s: seq<Byte>)
    requires |h| >= 2 && forall i :: 0 <= i < |h| ==> IsHex(h[i])
    ensures High(Decode([EQUALS] + h + s)) <= 1 + High(Decode(s))
  {
    var t := [EQUALS] + h + s;
    assert t[1] == h[0] && t[2] == h[1];
    assert t[3..] == h[2..] + s;
    DecodeDigits(h[2..], s);
    assert Decode(t)[1..] == Decode(t[3..]);
  }

  // The escape of a foreign code point decodes to one byte from its first two digits, followed by
  // the other digits as they stand.
  lemma HighOfRune(r: Rune, s: seq<Byte>)
    ensures High(Decode(EncodeRune(r) + s)) <= High(Decode(s)) + if r >= 0x80 then 1 else 0
  {
    if r < 0x80 {
      DecodeAsciiRune(r, s);
      assert ([r] + Decode(s))[1..] == Decode(s);
    } else {
      assert |Hex(r / 16)| >= 1;
      assert EncodeRune(r) == [EQUALS] + Hex(r);
      DecodeEscape(Hex(r), s);
    }
  }

  lemma HighOfChunk(r: Rune, offset: nat, s: seq<Byte>)
    ensures High(Decode(Chunk(r, offset) + s)) <= High(Decode(s)) + if r >= 0x80 then 1 else 0
  {
    assert Chunk(r, offset) + s == EncodeRune(r) + (SoftBreak(offset) + s);
    HighOfRune(r, SoftBreak(offset) + s);
    DecodeSoftBreak(offset, s);
  }

  lemma {:induction false} HighOfEncoded(text: seq<Rune>, offset: nat)
    ensures High(Decode(EncodeFrom(text, offset))) <= Foreign(text)
  {
    if text != [] {
      HighOfEncoded(text[1..], offset + Width(text[0]));
      HighOfChunk(text[0], offset, EncodeFrom(text[1..], offset + Width(text[0])));
    }
  }

  // Decoding gives back the bytes of a text exactly when the text is ASCII.
  lemma RoundTripExactly(text: seq<Rune>)
    ensures Decode(Encode(text)) == Bytes(text) <==> Ascii(text)
  {
    ForeignNone(text);
    if Ascii(text) {
      AsciiRoundTrip(text, 0);
    } else {
      HighOfBytes(text);
      HighOfEncoded(text, 0);
    }
  }

  // ----- Line lengths -----

  // Every line of s has at most limit characters, the first one continuing a line of col.
  predicate LinesFit(s: seq<Byte>, col: nat, limit: nat)
    decreases |s|
  {
    if |s| >= 2 && s[0] == RETURN && s[1] == NEWLINE then col <= limit && LinesFit(s[2..], 0, limit)
    else if s == [] then col <= limit
    else LinesFit(s[1..], col + 1, limit)
  }

  predicate NoReturn(p: seq<Byte>) {
    forall i :: 0 <= i < |p| ==> p[i] != RETURN
  }

  lemma {:induction false} PlainCharacters(p: seq<Byte>, s: seq<Byte>, col: nat, limit: nat)
    requires NoReturn(p)
    ensures LinesFit(p + s, col, limit) == LinesFit(s, col + |p|, limit)
  {
    if p == [] {
      assert p + s == s;
    } else {
      assert (p + s)[0] == p[0];
      assert (p + s)[1..] == p[1..] + s;
      PlainCharacters(p[1..], s, col + 1, limit);
    }
  }

  lemma LineEnd(s: seq<Byte>, col: nat, limit: nat)
    ensures LinesFit([RETURN, NEWLINE] + s, col, limit) == (col <= limit && LinesFit(s, 0, limit))
  {
    assert ([RETURN, NEWLINE] + s)[2..] == s;
  }

  lemma RuneOnLine(r: Rune, s: seq<Byte>, col: nat, limit: nat)
    ensures LinesFit(EncodeRune(r) + s, col, limit) ==
            if r == NEWLINE then col <= limit && LinesFit(s, 0, limit) else LinesFit(s, col + |EncodeRune(r)|, limit)
  {
    if r == NEWLINE {
      LineEnd(s, col, limit);
    } else {
      PlainCharacters(EncodeRune(r), s, col, limit);
    }
  }

  lemma BreakOnLine(offset: nat, s: seq<Byte>, col: nat, limit: nat)
    ensures LinesFit(SoftBreak(offset) + s, col, limit) ==
            if BreaksAfter(offset) then col + 1 <= limit && LinesFit(s, 0, limit) else LinesFit(s, col, limit)
  {
    if BreaksAfter(offset) {
      assert SoftBreak(offset) + s == [EQUALS] + ([RETURN, NEWLINE] + s);
      PlainCharacters([EQUALS], [RETURN, NEWLINE] + s, col, limit);
      LineEnd(s, col + 1, limit);
    } else {
      assert SoftBreak(offset) + s == s;
    }
  }

  lemma ChunkOnLine(r: Rune, offset: nat, s: seq<Byte>, col: nat, limit: nat)
    requires limit >= 1
    ensures LinesFit(Chunk(r, offset) + s, col, limit) ==
            if r == NEWLINE then col <= limit && LinesFit(s, 0, limit)
            else if BreaksAfter(offset) then col + |EncodeRune(r)| + 1 <= limit && LinesFit(s, 0, limit)
            else LinesFit(s, col + |EncodeRune(r)|, limit)
  {
    assert Chunk(r, offset) + s == EncodeRune(r) + (SoftBreak(offset) + s);
    RuneOnLine(r, SoftBreak(offset) + s, col, limit);
    BreakOnLine(offset, s, if r == NEWLINE then 0 else col + |EncodeRune(r)|, limit);
  }

  // The byte offset of a code point.
  function Offset(text: seq<Rune>, i: nat): nat
    requires i <= |text|
  {
    |Bytes(text[..i])|
  }

  // A text as cells to be set in lines.
  function CellAt(text: seq<Rune>, i: nat): Cell
    requires i < |text|
  {
    Cell(text[i] == NEWLINE, if text[i] == NEWLINE then 0 else |EncodeRune(text[i])|, BreaksAfter(Offset(text, i)))
  }

  function Cells(text: seq<Rune>): (cells: seq<Cell>)
    ensures |cells| == |text| && forall i :: 0 <= i < |text| ==> cells[i] == CellAt(text, i)
  {
    seq(|text|, i requires 0 <= i < |text| => CellAt(text, i))
  }

  // What is written from a code point on.
  function Tail(text: seq<Rune>, at: nat): seq<Byte>
    requires at <= |text|
  {
    EncodeFrom(text[at..], Offset(text, at))
  }

  lemma TailStep(text: seq<Rune>, at: nat)
    requires at < |text|
    ensures Tail(text, at) == Chunk(text[at], Offset(text, at)) + Tail(text, at + 1)
  {
    EncodeOneMore(text, at);
    assert text[at..][0] == text[at] && text[at..][1..] == text[at + 1..];
  }

  ghost predicate TailFits(text: seq<Rune>, at: nat, col: nat, limit: nat) {
    at <= |text| && LinesFit(Tail(text, at), col, limit)
  }

  lemma CellOnLine(text: seq<Rune>, at: nat, col: nat, limit: nat)
    requires at < |text| && limit >= 1
    ensures var cell := CellAt(text, at);
            TailFits(text, at, col, limit) <==>
            if cell.newline then col <= limit && TailFits(text, at + 1, 0, limit)
            else if cell.breaks then col + cell.width + 1 <= limit && TailFits(text, at + 1, 0, limit)
            else TailFits(text, at + 1, col + cell.width, limit)
  {
    TailStep(text, at);
    ChunkOnLine(text[at], Offset(text, at), Tail(text, at + 1), col, limit);
  }

  lemma EndOnLine(text: seq<Rune>, col: nat, limit: nat)
    ensures TailFits(text, |text|, col, limit) <==> col <= limit
  {
    assert Tail(text, |text|) == [];
  }

  lemma {:induction false} LinesAreBlocks(text: seq<Rune>, at: nat, col: nat, limit: nat)
    requires at <= |text| && limit >= 1
    ensures TailFits(text, at, col, limit) <==> BlocksFit(Cells(text), at, col, limit)
    decreases |text| - at
  {
    if at == |text| {
      EndOnLine(text, col, limit);
    } else {
      var cell := Cells(text)[at];
      var next := if cell.newline || cell.breaks then 0 else col + cell.width;
      CellOnLine(text, at, col, limit);
      LinesAreBlocks(text, at + 1, next, limit);
    }
  }

  // The lines of an encoded text keep to a limit exactly when every stretch of the text without a
  // newline or a place of a soft break inside it is written in so many characters, counting the "="
  // if it ends at such a place.
  lemma LimitKeptExactly(text: seq<Rune>, limit: nat)
    requires limit >= 1
    ensures LinesFit(Encode(text), 0, limit) <==> PiecesFit(Cells(text), limit)
  {
    assert text[0..] == text && Offset(text, 0) == 0;
    LinesAreBlocks(text, 0, 0, limit);
    FitExactly(Cells(text), limit);
  }

  lemma {:induction false} AsciiOffset(text: seq<Rune>, i: nat)
    requires i <= |text| && Ascii(text[..i])
    ensures Offset(text, i) == i
  {
    if i > 0 {
      assert text[..i][i - 1] == text[i - 1] && text[..i][..i - 1] == text[..i - 1];
      assert forall k :: 0 <= k < i - 1 ==> text[..i - 1][k] == text[..i][k];
      AsciiOffset(text, i - 1);
      EncodeOneMore(text, i - 1);
    }
  }

  lemma AsciiBreaks(text: seq<Rune>, k: nat)
    requires k < |text| && Ascii(text[..k])
    ensures Cells(text)[k].breaks == BreaksAfter(k) && Cells(text)[k].newline == (text[k] == NEWLINE)
  {
    AsciiOffset(text, k);
    assert Cells(text)[k] == CellAt(text, k);
  }

  // Between two soft breaks of an ASCII text lie 70 code points, and 71 before the first.
  lemma PieceIsShort(text: seq<Rune>, i: nat, j: nat)
    requires Ascii(text) && OneLine(Cells(text), i, j)
    ensures j - i <= 71
  {
    var k := if i == 0 then 70 else (i + 69) / 70 * 70;
    assert BreaksAfter(k) && i <= k <= i + 70;
    if k < j - 1 { AsciiBreaks(text, k); }
  }

  lemma LinesBound(text: seq<Rune>, wide: bool)
    requires Ascii(text) && forall i :: 0 <= i < |text| ==> CellAt(text, i).width <= Room(wide, 1)
    ensures LinesFit(Encode(text), 0, Room(wide, 71) + 1)
  {
    var cells := Cells(text);
    forall i: nat, j: nat | OneLine(cells, i, j) ensures Length(cells, i, j) <= Room(wide, 71) + 1 {
      PieceIsShort(text, i, j);
      WidthsBound(cells, i, j, wide);
    }
    LimitKeptExactly(text, Room(wide, 71) + 1);
  }

  // Lines of an ASCII text have at most 72 characters when nothing needs escaping, and 214 at most.
  lemma LineLengths(text: seq<Rune>)
    requires Ascii(text)
    ensures LinesFit(Encode(text), 0, 214)
    ensures (forall i :: 0 <= i < |text| ==> text[i] == NEWLINE || Literal(text[i])) ==> LinesFit(Encode(text), 0, 72)
  {
    forall i | 0 <= i < |text| ensures CellAt(text, i).width <= 3 {
      AsciiEscape(text[i]);
    }
    LinesBound(text, true);
    if forall i :: 0 <= i < |text| ==> text[i] == NEWLINE || Literal(text[i]) {
      LinesBound(text, false);
    }
  }

  lemma FirstBreak(offset: nat)
    requires offset <= 70
    ensures BreaksAfter(offset) <==> offset == 70
  {
  }

  lemma FirstPiece(text: seq<Rune>)
    requires |text| >= 71 && Ascii(text[..71]) && forall i :: 0 <= i < 71 ==> text[i] != NEWLINE
    ensures OneLine(Cells(text), 0, 71) && Length(Cells(text), 0, 71) == Widths(Cells(text)[0..71]) + 1
  {
    forall k: nat | k < 71 ensures (Cells(text)[k].breaks <==> k == 70) && !Cells(text)[k].newline {
      assert forall i :: 0 <= i < k ==> text[..k][i] == text[..71][i];
      AsciiBreaks(text, k);
      FirstBreak(k);
    }
  }

  // Escapes among the first 71 code points are enough to exceed the 76 characters RFC 2045 allows,
  // since soft breaks are placed by input offset and not by output column.
  lemma LineOver76(text: seq<Rune>)
    requires |text| >= 71 && Ascii(text[..71])
    requires forall i :: 0 <= i < 71 ==> text[i] != NEWLINE
    ensures Widths(Cells(text)[0..71]) >= 76 ==> !LinesFit(Encode(text), 0, 76)
  {
    LimitKeptExactly(text, 76);
    FirstPiece(text);
  }
}
