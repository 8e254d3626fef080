// What the encoder writes, code point by code point.
module QuotedPrintableLaws {
  import opened QuotedPrintable

  // ----- Numbers in base 16 -----

  ghost predicate IsUpperHex(b: Byte) {
    '0' <= b as char <= '9' || 'A' <= b as char <= 'F'
  }

  function Digit(b: Byte): int {
    if b as char <= '9' then b - 48 else b - 65 + 10
  }

  // The value of some digits, the most significant one first.
  function Value(s: seq<Byte>): int {
    if s == [] then 0 else 16 * Value(s[..|s| - 1]) + Digit(s[|s| - 1])
  }

  lemma {:induction false} HexMeans(r: nat)
    ensures Value(Hex(r)) == r && (forall i :: 0 <= i < |Hex(r)| ==> IsUpperHex(Hex(r)[i]))
    ensures r >= 1 ==> Hex(r)[0] != '0' as int
    ensures r < 16 ==> |Hex(r)| == 1
  {
    if r >= 16 {
      HexMeans(r / 16);
      var h := Hex(r);
      assert h[..|h| - 1] == Hex(r / 16) && h[|h| - 1] == HexDigit(r % 16);
    } else {
      assert Hex(r)[..0] == [];
      assert Value(Hex(r)) == 16 * Value([]) + Digit(HexDigit(r));
    }
  }

  // ----- One code point -----

  // An escape: an equals sign and at least two upper-case hexadecimal digits, no more than needed,
  // whose value is the code point.
  ghost predicate IsEscapeOf(r: Rune, s: seq<Byte>) {
    && |s| >= 3 && s[0] == '=' as int
    && (forall i :: 1 <= i < |s| ==> IsUpperHex(s[i]))
    && (|s| > 3 ==> s[1] != '0' as int)
    && Value(s[1..]) == r
  }

  // How a code point is written: the newline as CRLF, printable ASCII but the equals sign as itself,
  // and everything else as an escape.
  ghost predicate Writes(r: Rune, s: seq<Byte>) {
    if r == '\n' as int then s == [13, 10]
    else if ' ' as int <= r <= '~' as int && r != '=' as int then s == [r]
    else IsEscapeOf(r, s)
  }

  lemma ValueOfPadded(h: Byte)
    ensures Value([48, h]) == Digit(h)
  {
    assert [48, h][..1] == [48] && [48][..0] == [];
    assert Value([48]) == 16 * Value([]) + Digit(48) && Value([48, h]) == 16 * Value([48]) + Digit(h);
  }

  lemma EscapeMeans(r: Rune)
    ensures IsEscapeOf(r, Escape(r))
  {
    HexMeans(r);
    var s := Escape(r);
    if r < 16 {
      assert s == [61, 48, Hex(r)[0]] && s[1..] == [48, Hex(r)[0]];
      ValueOfPadded(Hex(r)[0]);
      assert Hex(r)[..0] == [] && Value(Hex(r)) == 16 * Value([]) + Digit(Hex(r)[0]);
    } else {
      assert s[1..] == Hex(r);
      assert |Hex(r)| == |Hex(r / 16)| + 1;
    }
  }

  lemma RuneIsWritten(r: Rune)
    ensures Writes(r, EncodeRune(r))
  {
    EscapeMeans(r);
  }

  // ----- A text -----

  // Where a code point is followed by a soft break: at every positive multiple of 70 of the byte
  // offset it starts at.
  ghost predicate BreakFollows(offset: nat, s: seq<Byte>) {
    if exists k: nat :: k >= 1 && offset == 70 * k then s == ['=' as int, 13, 10] else s == []
  }

  lemma BreakIsWritten(offset: nat)
    ensures BreakFollows(offset, SoftBreak(offset))
  {
    if BreaksAfter(offset) { assert offset == 70 * (offset / 70); }
  }

  function Flat(pieces: seq<seq<Byte>>): seq<Byte> {
    if pieces == [] then [] else pieces[0] + Flat(pieces[1..])
  }

  // The pieces a text is written in, from a byte offset on.
  function Pieces(text: seq<Rune>, offset: nat): (pieces: seq<seq<Byte>>)
    ensures |pieces| == |text|
  {
    if text == [] then [] else [Chunk(text[0], offset)] + Pieces(text[1..], offset + Width(text[0]))
  }

  lemma {:induction false} EncodeIsFlat(text: seq<Rune>, offset: nat)
    ensures EncodeFrom(text, offset) == Flat(Pieces(text, offset))
  {
    if text != [] {
      EncodeIsFlat(text[1..], offset + Width(text[0]));
      assert Pieces(text, offset)[1..] == Pieces(text[1..], offset + Width(text[0]));
    }
  }

  lemma {:induction false} PieceAt(text: seq<Rune>, offset: nat, i: nat)
    requires i < |text|
    ensures Pieces(text, offset)[i] == Chunk(text[i], offset + |Bytes(text[..i])|)
  {
    if i > 0 {
      PieceAt(text[1..], offset + Width(text[0]), i - 1);
      assert text[..i][0] == text[0] && text[..i][1..] == text[1..][..i - 1];
    }
  }

  // A piece is a code point as it is written and the soft break behind it, if there is one.
  ghost predicate IsPiece(text: seq<Rune>, i: nat, piece: seq<Byte>)
    requires i < |text|
  {
    exists written, ending ::
      Writes(text[i], written) && BreakFollows(Offset(text, i), ending) && piece == written + ending
  }

  // The encoding of a text is that of its code points, each with its soft break, in order.
  lemma EncodeIsPieces(text: seq<Rune>)
    ensures var pieces := Pieces(text, 0);
            && Encode(text) == Flat(pieces) && |pieces| == |text|
            && forall i :: 0 <= i < |text| ==> IsPiece(text, i, pieces[i])
  {
    EncodeIsFlat(text, 0);
    forall i | 0 <= i < |text| ensures IsPiece(text, i, Pieces(text, 0)[i]) {
      PieceAt(text, 0, i);
      RuneIsWritten(text[i]);
      BreakIsWritten(Offset(text, i));
    }
  }

  // ----- UTF-8 -----

  // The code point some bytes of UTF-8 stand for.
  function FromUtf8(s: seq<Byte>): int {
    if |s| == 1 then s[0] as int
    else if |s| == 2 then (s[0] as int - 192) * 64 + Low(s[1])
    else if |s| == 3 then (s[0] as int - 224) * 4096 + Low(s[1]) * 64 + Low(s[2])
    else if |s| == 4 then (s[0] as int - 240) * 262144 + Low(s[1]) * 4096 + Low(s[2]) * 64 + Low(s[3])
    else -1
  }

  function Low(b: Byte): int {
    b as int - 128
  }

  lemma Sextets(r: nat)
    ensures r / 4096 == r / 64 / 64 && r / 262144 == r / 64 / 64 / 64
    ensures r == r / 64 * 64 + r % 64
    ensures r / 64 == r / 4096 * 64 + r / 64 % 64
    ensures r / 4096 == r / 262144 * 64 + r / 4096 % 64
  {
  }

  // The bytes of a code point stand for it, are as few as can be, and tell by their first how many
  // they are.
  lemma Utf8Means(r: Rune)
    ensures var s := Utf8(r);
            && FromUtf8(s) == r
            && |s| == (if r <= 127 then 1 else if r <= 2047 then 2 else if r <= 65535 then 3 else 4)
            && (forall i :: 1 <= i < |s| ==> 128 <= s[i] <= 191)
            && (|s| == 1 ==> s[0] <= 127) && (|s| == 2 ==> 192 <= s[0] <= 223)
            && (|s| == 3 ==> 224 <= s[0] <= 239) && (|s| == 4 ==> 240 <= s[0] <= 247)
  {
    Sextets(r);
    var a, b, c := r % 64, r / 64 % 64, r / 4096 % 64;
    assert Continuation(r) == 128 + a && Continuation(r / 64) == 128 + b && Continuation(r / 4096) == 128 + c;
  }
}
