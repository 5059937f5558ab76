/** Splitting a line of backtrace_symbols, "module(function+offset) [address]", and the short file name. */
module StackTrace {
  import opened Bytes

  const OPEN: byte := 40
  const PLUS: byte := 43
  const CLOSE: byte := 41
  const SLASH: byte := 47

  /** `i` is the last place before `end` where `c` stands. */
  predicate LastBefore(line: bytes, c: byte, i: int, end: int) {
    0 <= i < end <= |line| && line[i] == c && forall j | i < j < end :: line[j] != c
  }

  /** `end` is the first ')' that comes after some '+'. */
  predicate FirstCloseAfterPlus(line: bytes, end: int) {
    && 0 <= end < |line| && line[end] == CLOSE && PLUS in line[..end]
    && forall j | 0 <= j < end :: line[j] == CLOSE ==> PLUS !in line[..j]
  }

  /** The places of the delimiters of a line that can be split. */
  predicate Delimiters(line: bytes, name: int, offset: int, end: int) {
    FirstCloseAfterPlus(line, end) && LastBefore(line, OPEN, name, end) && LastBefore(line, PLUS, offset, end)
      && name < offset
  }

  datatype Symbol = Split(mod: bytes, name: bytes, offset: bytes) | Unparsed(line: bytes)

  lemma OneEnd(line: bytes, e1: int, e2: int)
    requires FirstCloseAfterPlus(line, e1) && FirstCloseAfterPlus(line, e2)
    ensures e1 == e2
  {
  }

  /** A line has at most one choice of delimiters. */
  lemma DelimitersUnique(line: bytes, n1: int, o1: int, e1: int, n2: int, o2: int, e2: int)
    requires Delimiters(line, n1, o1, e1) && Delimiters(line, n2, o2, e2)
    ensures n1 == n2 && o1 == o2 && e1 == e2
  {
    OneEnd(line, e1, e2);
  }

  /** What the scan of a line leaves in its three pointers; -1 stands for null. */
  ghost predicate Scanned(line: bytes, name: int, offset: int, end: int) {
    if end >= 0 then
      && FirstCloseAfterPlus(line, end) && LastBefore(line, PLUS, offset, end)
      && (if name >= 0 then LastBefore(line, OPEN, name, end) else OPEN !in line[..end])
    else forall e :: !FirstCloseAfterPlus(line, e)
  }

  lemma ScanDecides(line: bytes, name: int, offset: int, end: int)
    requires Scanned(line, name, offset, end)
    ensures 0 <= name < offset && end >= 0 <==> exists n, o, e :: Delimiters(line, n, o, e)
    ensures 0 <= name < offset && end >= 0 ==> Delimiters(line, name, offset, end)
  {
    if 0 <= name < offset && end >= 0 {
      assert Delimiters(line, name, offset, end);
    }
    forall n, o, e | Delimiters(line, n, o, e) ensures 0 <= name < offset && end >= 0 {
      assert FirstCloseAfterPlus(line, e);
      OneEnd(line, e, end);
      assert line[n] in line[..e];
    }
  }

  lemma NulEnds(text: bytes, p: nat)
    requires 0 !in text
    ensures p < |text| ==> text[p] != 0
  {
  }

  /** The pointer scan. */
  method Scan(line: array<byte>, length: nat) returns (beginName: int, beginOffset: int, endOffset: int)
    requires length < line.Length && line[length] == 0 && 0 !in line[..length]
    ensures Scanned(line[..length], beginName, beginOffset, endOffset)
  {
    beginName, beginOffset, endOffset := -1, -1, -1;
    var p := 0;
    ghost var text := line[..length];
    while line[p] != 0
      invariant p <= length
      invariant if beginName >= 0 then LastBefore(text, OPEN, beginName, p) else beginName == -1 && OPEN !in text[..p]
      invariant if beginOffset >= 0 then LastBefore(text, PLUS, beginOffset, p)
        else beginOffset == -1 && PLUS !in text[..p]
      invariant forall j | 0 <= j < p :: text[j] == CLOSE ==> PLUS !in text[..j]
      decreases length - p
    {
      assert text[..p + 1] == text[..p] + [text[p]];
      if line[p] == OPEN {
        beginName := p;
      } else if line[p] == PLUS {
        beginOffset := p;
      } else if line[p] == CLOSE && beginOffset >= 0 {
        endOffset := p;
        assert text[beginOffset] in text[..p];
        return;
      }
      p := p + 1;
    }
    NulEnds(text, p);
    assert p == length;
  }

  /**
   Cuts the line in place with NULs and reads the pieces as C strings. A line is split exactly when it has
   delimiters, at those; rejoining the pieces with what follows the end gives the line back.
   */
  method SplitLine(line: array<byte>, length: nat)
    returns (symbol: Symbol, ghost name: int, ghost offset: int, ghost end: int)
    requires length < line.Length && line[length] == 0 && 0 !in line[..length]
    modifies line
    ensures symbol.Split? <==> exists n, o, e :: Delimiters(old(line[..length]), n, o, e)
    ensures symbol.Unparsed? ==> symbol.line == old(line[..length]) && line[..] == old(line[..])
    ensures symbol.Split? ==>
      var text := old(line[..length]);
      && Delimiters(text, name, offset, end)
      && line[..] == old(line[..])[name := 0][offset := 0][end := 0]
      && symbol == Split(text[..name], text[name + 1..offset], text[offset + 1..end])
  {
    ghost var text, whole := line[..length], line[..];
    var beginName, beginOffset, endOffset := Scan(line, length);
    name, offset, end := beginName, beginOffset, endOffset;
    ScanDecides(text, name, offset, end);
    hide Scanned, CString;
    if beginName >= 0 && beginOffset >= 0 && endOffset >= 0 && beginName < beginOffset {
      hide Delimiters;
      symbol := CutAndRead(line, length, beginName, beginOffset, endOffset);
      assert text[..name] == whole[..name] && text[name + 1..offset] == whole[name + 1..offset]
        && text[offset + 1..end] == whole[offset + 1..end];
    } else {
      CStringAt(line[..], length);
      symbol := Unparsed(CString(line[..]));
    }
  }

  method CutAndRead(line: array<byte>, length: nat, beginName: nat, beginOffset: nat, endOffset: nat)
    returns (symbol: Symbol)
    requires length < line.Length && 0 !in line[..length] && beginName < beginOffset < endOffset < length
    modifies line
    ensures line[..] == old(line[..])[beginName := 0][beginOffset := 0][endOffset := 0]
    ensures symbol == old(Split(line[..beginName], line[beginName + 1..beginOffset], line[beginOffset + 1..endOffset]))
  {
    hide CString;
    CutPieces(line[..], length, beginName, beginOffset, endOffset);
    ghost var cut := line[..][beginName := 0][beginOffset := 0][endOffset := 0];
    ghost var pieces := Split(line[..beginName], line[beginName + 1..beginOffset], line[beginOffset + 1..endOffset]);
    assert pieces == Split(line[..][..beginName], line[..][beginName + 1..beginOffset],
      line[..][beginOffset + 1..endOffset]);
    line[beginName] := 0;
    line[beginOffset] := 0;
    line[endOffset] := 0;
    assert line[..] == cut;
    symbol := Split(CString(line[..]), CString(line[..][beginName + 1..]), CString(line[..][beginOffset + 1..]));
  }

  lemma PieceAt(s: bytes, from: nat, to: nat)
    requires from <= to < |s| && s[to] == 0 && 0 !in s[from..to]
    ensures CString(s[from..]) == s[from..to]
  {
    assert s[from..][..to - from] == s[from..to];
    CStringAt(s[from..], to - from);
  }

  /** The C strings of a line once its delimiters are NULs. */
  lemma CutPieces(line: bytes, length: nat, name: nat, offset: nat, end: nat)
    requires length < |line| && 0 !in line[..length] && name < offset < end < length
    ensures
      var cut := line[name := 0][offset := 0][end := 0];
      && CString(cut) == line[..name]
      && CString(cut[name + 1..]) == line[name + 1..offset]
      && CString(cut[offset + 1..]) == line[offset + 1..end]
  {
    hide CString;
    var cut := line[name := 0][offset := 0][end := 0];
    assert cut[0..name] == line[..name] == line[..length][..name] && cut[0..] == cut;
    assert cut[name + 1..offset] == line[name + 1..offset] == line[..length][name + 1..offset];
    assert cut[offset + 1..end] == line[offset + 1..end] == line[..length][offset + 1..end];
    PieceAt(cut, 0, name);
    PieceAt(cut, name + 1, offset);
    PieceAt(cut, offset + 1, end);
  }

  /** Splitting loses nothing, and each piece ends at the delimiter it is meant to. */
  lemma SplitIsLossless(line: bytes, name: int, offset: int, end: int)
    requires Delimiters(line, name, offset, end)
    // '(' is 40, '+' is 43 and ')' is 41
    ensures line == line[..name] + [40] + line[name + 1..offset] + [43] + line[offset + 1..end] + [41]
      + line[end + 1..]
    ensures PLUS !in line[offset + 1..end] && CLOSE !in line[offset + 1..end]
    ensures OPEN !in line[name + 1..offset] && OPEN !in line[offset + 1..end]
  {
    forall i | offset < i < end ensures line[i] != CLOSE {
      assert line[offset] in line[..i];
    }
  }

  // ---- the short file name -----------------------------------------------------------------

  class LogInfo {
    const longFileName: bytes
    /** The position of the short name in the long one, once it has been asked for. */
    var fileName: Option<nat>

    ghost predicate Valid()
      reads this
    {
      fileName.Some? ==> ShortName(longFileName, fileName.value)
    }

    constructor (longFileName: bytes)
      ensures Valid() && this.longFileName == longFileName && fileName == None
    {
      this.longFileName, fileName := longFileName, None;
    }

    method GetFileName() returns (position: nat)
      requires Valid()
      modifies this`fileName
      ensures Valid() && fileName == Some(position)
      ensures ShortName(longFileName, position)
    {
      if fileName == None {
        var shortNamePosition: nat := |longFileName|;
        while shortNamePosition > 0 && longFileName[shortNamePosition - 1] != SLASH
          invariant shortNamePosition <= |longFileName| && SLASH !in longFileName[shortNamePosition..]
        {
          shortNamePosition := shortNamePosition - 1;
        }
        fileName := Some(shortNamePosition);
      }
      position := fileName.value;
    }
  }

  /** What follows the last slash, or everything. */
  ghost predicate ShortName(longFileName: bytes, position: nat) {
    && position <= |longFileName| && SLASH !in longFileName[position..]
    && (position == 0 || longFileName[position - 1] == SLASH)
  }

  /** The short name of a file in a directory is the name, and only that ('/' is 47). */
  lemma ShortNameInDirectory(directory: bytes, name: bytes, position: nat)
    requires 47 !in name
    ensures ShortName(directory + [47] + name, position) <==> position == |directory| + 1
  {
    var path := directory + [47] + name;
    assert path[|directory|] == 47 && path[|directory| + 1..] == name;
    if position <= |directory| { assert path[position..][|directory| - position] == 47; }
  }
}
