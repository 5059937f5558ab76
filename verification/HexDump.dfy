/** byteArrayToString: a hexadecimal dump into a fixed buffer of 1024 characters. */
module HexDump {
  import opened Bytes

  const TEXT_BUFFER_SIZE: nat := 1024
  const SPACE: byte := 32

  /** The most input bytes that fit with three characters each and a final NUL. */
  const MAX_DUMPED: nat := TEXT_BUFFER_SIZE / 3

  function HexCode(nibble: nat): byte
    requires nibble < 16
  {
    if nibble < 10 then 48 + nibble else 65 + nibble - 10
  }

  function Dump(b: bytes): (text: bytes)
    ensures |text| == 3 * |b|
  {
    if b == [] then [] else Dump(b[..|b| - 1]) + [HexCode(b[|b| - 1] / 16), HexCode(b[|b| - 1] % 16), SPACE]
  }

  function Clamped(buffer: bytes): bytes {
    if |buffer| <= MAX_DUMPED then buffer else buffer[..MAX_DUMPED]
  }

  lemma {:induction false} DumpIsText(b: bytes)
    ensures 0 !in Dump(b)
  {
    if b != [] { DumpIsText(b[..|b| - 1]); }
  }

  /** Writes three characters for each of the first `length` bytes, then a NUL. */
  method FillBuffer(buffer: bytes, length: nat, textBuffer: array<byte>) returns (dest: nat)
    requires length <= |buffer| && 3 * length < textBuffer.Length
    modifies textBuffer
    ensures dest == 3 * length && textBuffer[..dest] == Dump(buffer[..length]) && textBuffer[dest] == 0
    ensures textBuffer[dest + 1..] == old(textBuffer[dest + 1..])
  {
    dest := 0;
    for byteIndex := 0 to length
      invariant dest == 3 * byteIndex && textBuffer[..dest] == Dump(buffer[..byteIndex])
      invariant textBuffer[dest..] == old(textBuffer[dest..])
    {
      textBuffer[dest] := HexCode(buffer[byteIndex] / 16);
      textBuffer[dest + 1] := HexCode(buffer[byteIndex] % 16);
      textBuffer[dest + 2] := SPACE;
      dest := dest + 3;
      assert buffer[..byteIndex + 1][..byteIndex] == buffer[..byteIndex];
    }
    textBuffer[dest] := 0;
  }

  /** The dump as the C string in the buffer; the last index written is at most 1023. */
  method ByteArrayToString(buffer: bytes, textBuffer: array<byte>) returns (text: bytes)
    requires textBuffer.Length == TEXT_BUFFER_SIZE
    modifies textBuffer
    ensures text == Dump(Clamped(buffer))
    ensures Undump(text) == Some(if |buffer| <= 341 then buffer else buffer[..341])
    ensures |text| < TEXT_BUFFER_SIZE && textBuffer[..|text|] == text && textBuffer[|text|] == 0
    ensures textBuffer[|text| + 1..] == old(textBuffer[|text| + 1..])
  {
    hide Dump, CString;
    var length := |buffer|;
    if length + 1 > TEXT_BUFFER_SIZE / 3 {
      length := TEXT_BUFFER_SIZE / 3;
    }
    var dest := FillBuffer(buffer, length, textBuffer);
    assert buffer[..length] == Clamped(buffer);
    DumpIsText(Clamped(buffer));
    CStringAt(textBuffer[..], dest);
    text := CString(textBuffer[..]);
    UndumpInverts(Clamped(buffer));
  }

  // ---- the reader's side -------------------------------------------------------------------

  function HexValue(c: byte): Option<nat> {
    if 48 <= c <= 57 then Some(c - 48) else if 65 <= c <= 70 then Some(c - 55) else None
  }

  /** Reads a text of two-digit groups, each followed by a space. */
  function Undump(text: bytes): Option<bytes> {
    if text == [] then Some([])
    else if |text| < 3 || text[2] != SPACE || HexValue(text[0]).None? || HexValue(text[1]).None? then None
    else
      var high, low, others := HexValue(text[0]).value, HexValue(text[1]).value, Undump(text[3..]);
      if others.None? || 16 * high + low >= 256 then None else Some([16 * high + low] + others.value)
  }

  lemma {:induction false} DumpFront(b: bytes)
    requires b != []
    ensures Dump(b) == Dump(b[..1]) + Dump(b[1..])
  {
    if |b| == 1 {
      assert b[..1] == b && b[1..] == [];
    } else {
      var front := b[..|b| - 1];
      DumpFront(front);
      assert front[..1] == b[..1] && front[1..] == b[1..][..|b| - 2];
    }
  }

  lemma {:induction false} UndumpInverts(b: bytes)
    ensures Undump(Dump(b)) == Some(b)
  {
    if b != [] {
      DumpFront(b);
      assert b[..1] == [b[0]] && [b[0]][..0] == [];
      var text := Dump(b);
      assert text == [HexCode(b[0] / 16), HexCode(b[0] % 16), SPACE] + Dump(b[1..]);
      assert text[3..] == Dump(b[1..]);
      UndumpInverts(b[1..]);
      assert b == [b[0]] + b[1..];
    }
  }

  /** The digits are upper-case hexadecimal, most significant first, with a space after each byte. */
  lemma {:induction false} DumpAt(b: bytes, i: nat)
    requires i < |b|
    ensures
      var digits := [48, 49, 50, 51, 52, 53, 54, 55, 56, 57, 65, 66, 67, 68, 69, 70]; // "0123456789ABCDEF"
      Dump(b)[3 * i] == digits[b[i] / 16] && Dump(b)[3 * i + 1] == digits[b[i] % 16] && Dump(b)[3 * i + 2] == 32
  {
    if i < |b| - 1 { DumpAt(b[..|b| - 1], i); }
  }

  /** Two inputs have the same dump exactly when they agree on the first 341 bytes. */
  lemma SameDumpIffSameStart(a: bytes, b: bytes)
    ensures Dump(Clamped(a)) == Dump(Clamped(b)) <==> Clamped(a) == Clamped(b)
    ensures |a| <= 341 && |b| <= 341 ==> (Dump(Clamped(a)) == Dump(Clamped(b)) <==> a == b)
  {
    UndumpInverts(Clamped(a));
    UndumpInverts(Clamped(b));
  }
}
