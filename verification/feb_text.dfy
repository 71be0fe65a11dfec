/**
 * The ASCII form of the slow-control register: the printer writes bits, a separator and a
 * comment on each line; the parser reads the bits before the first foreign character of each line.
 */
module FebText {
  import Bits
  import opened BitImage
  import opened ParameterLayout
  import opened Sequences

  predicate IsBit(c: char) {
    c == '0' || c == '1'
  }

  /** The bits of one line before its first character that is neither a bit nor a blank. */
  function HeadBits(line: string): seq<bool> {
    if line == "" then []
    else if line[0] == ' ' then HeadBits(line[1..])
    else if IsBit(line[0]) then [line[0] == '1'] + HeadBits(line[1..])
    else []
  }

  function LineLength(text: string): (n: nat)
    ensures n <= |text|
    ensures '\n' !in text[..n]
    ensures n < |text| ==> text[n] == '\n'
  {
    if text == "" || text[0] == '\n' then 0 else 1 + LineLength(text[1..])
  }

  /** What a text is worth: the leading bits of all its lines, in order. */
  function ReadableBits(text: string): seq<bool> {
    if text == "" then []
    else
      var n := LineLength(text);
      HeadBits(text[..n]) + (if n < |text| then ReadableBits(text[n + 1..]) else [])
  }

  lemma {:induction false} LineLengthAt(line: string, rest: string)
    requires '\n' !in line
    ensures LineLength(line + "\n" + rest) == |line|
  {
    if line != "" {
      assert (line + "\n" + rest)[1..] == line[1..] + "\n" + rest;
      LineLengthAt(line[1..], rest);
    }
  }

  lemma ReadableLine(line: string, rest: string)
    requires '\n' !in line
    ensures ReadableBits(line + "\n" + rest) == HeadBits(line) + ReadableBits(rest)
  {
    LineLengthAt(line, rest);
    var text := line + "\n" + rest;
    assert text[..|line|] == line && text[|line| + 1..] == rest;
  }

  /** One line of ASCIIToBitStream: its leading bits are added after the `done` ones, room permitting. */
  method ScanLine(line: string, bitstream: array<bv8>, nBits: nat, ghost done: seq<bool>, start: nat)
    returns (readBits: nat, tooLong: bool)
    requires nBits == 8 * bitstream.Length && start == |done| <= nBits
    requires RegisterBits(bitstream[..]) == Padded(done, nBits)
    modifies bitstream
    ensures tooLong <==> |done + HeadBits(line)| > nBits
    ensures !tooLong ==> readBits == |done + HeadBits(line)|
    ensures !tooLong ==> RegisterBits(bitstream[..]) == Padded(done + HeadBits(line), nBits)
  {
    readBits, tooLong := start, false;
    ghost var bits := done;
    assert line[0..] == line;
    var i := 0;
    while i < |line|
      invariant i <= |line| && readBits == |bits| <= nBits
      invariant RegisterBits(bitstream[..]) == Padded(bits, nBits)
      invariant bits + HeadBits(line[i..]) == done + HeadBits(line)
    {
      var c := line[i];
      assert line[i..][1..] == line[i + 1..];
      if IsBit(c) {
        assert bits + HeadBits(line[i..]) == (bits + [c == '1']) + HeadBits(line[i + 1..]);
        if readBits >= nBits {
          tooLong := true;
          return;
        }
        PaddedStep(bits, nBits, c == '1');
        if c == '1' {
          SetBit(readBits, true, bitstream, nBits);
        }
        bits := bits + [c == '1'];
        readBits := readBits + 1;
      } else if c != ' ' {
        break;
      }
      i := i + 1;
    }
    assert bits == done + HeadBits(line);
  }

  /** ASCIIToBitStream: succeeds exactly when the text is worth nBits bits, and clears the stream otherwise. */
  method ASCIIToBitStream(text: string, bitstream: array<bv8>, nBits: nat) returns (ok: bool)
    requires nBits == 8 * bitstream.Length
    modifies bitstream
    ensures ok <==> |ReadableBits(text)| == nBits
    ensures ok ==> RegisterBits(bitstream[..]) == ReadableBits(text)
    ensures !ok ==> forall i | 0 <= i < bitstream.Length :: bitstream[i] == 0
  {
    Reset(bitstream);
    var readBits, rest, tooLong := 0, text, false;
    ghost var done: seq<bool> := [];
    while rest != ""
      invariant readBits == |done| <= nBits
      invariant RegisterBits(bitstream[..]) == Padded(done, nBits)
      invariant Remains(text, done, rest)
      decreases |rest|
    {
      var n := LineLength(rest);
      NextRemains(text, done, rest);
      ghost var head := HeadBits(rest[..n]);
      readBits, tooLong := ScanLine(rest[..n], bitstream, nBits, done, readBits);
      if tooLong {
        Reset(bitstream);
        return false;
      }
      done := done + head;
      rest := if n < |rest| then rest[n + 1..] else "";
    }
    if readBits < nBits {
      Reset(bitstream);
      return false;
    }
    return true;
  }

  /** A text is worth the bits read so far and those of the rest. */
  ghost predicate Remains(text: string, done: seq<bool>, rest: string) {
    done + ReadableBits(rest) == ReadableBits(text)
  }

  /** What is left of a text after its first line. */
  function AfterLine(text: string): string {
    var n := LineLength(text);
    if n < |text| then text[n + 1..] else ""
  }

  lemma {:induction false} NextRemains(text: string, done: seq<bool>, rest: string)
    requires Remains(text, done, rest) && rest != ""
    ensures Remains(text, done + HeadBits(rest[..LineLength(rest)]), AfterLine(rest))
    ensures |done + HeadBits(rest[..LineLength(rest)])| <= |ReadableBits(text)|
  {
    FirstLine(rest);
    Associate(done, HeadBits(rest[..LineLength(rest)]), ReadableBits(AfterLine(rest)));
  }

  /** A text is worth its first line and what is left after it. */
  lemma {:induction false} FirstLine(text: string)
    requires text != ""
    ensures ReadableBits(text) == HeadBits(text[..LineLength(text)]) + ReadableBits(AfterLine(text))
  {
  }

  lemma PaddedStep(bits: seq<bool>, nBits: nat, bit: bool)
    requires |bits| < nBits
    ensures Padded(bits + [bit], nBits) == Padded(bits, nBits)[|bits| := bit]
  {
  }

  /** The bits read so far, followed by zeros. */
  ghost function Padded(bits: seq<bool>, nBits: nat): (r: seq<bool>)
    requires |bits| <= nBits
    ensures |r| == nBits
  {
    bits + seq(nBits - |bits|, _ => false)
  }

  method Reset(bitstream: array<bv8>)
    modifies bitstream
    ensures forall i | 0 <= i < bitstream.Length :: bitstream[i] == 0
    ensures RegisterBits(bitstream[..]) == Padded([], 8 * bitstream.Length)
  {
    for i := 0 to bitstream.Length
      invariant forall j | 0 <= j < i :: bitstream[j] == 0
    {
      bitstream[i] := 0;
    }
    ZeroImage(bitstream[..]);
  }

  function Digits(bits: seq<bool>): (s: string)
    ensures |s| == |bits|
  {
    seq(|bits|, i requires 0 <= i < |bits| => if bits[i] then '1' else '0')
  }

  /** BitsToASCII on the slow-control register. */
  method BitsToASCII(bitstream: array<bv8>, first: nat, last: nat) returns (s: string)
    requires 8 * bitstream.Length == SLOW_CONTROL_BITSTREAM_NBITS
    ensures last >= SLOW_CONTROL_BITSTREAM_NBITS ==> s == "-"
    ensures last < SLOW_CONTROL_BITSTREAM_NBITS && first > last ==> s == ""
    ensures first <= last < SLOW_CONTROL_BITSTREAM_NBITS ==>
              s == Digits(RegisterBits(bitstream[..])[first..last + 1])
  {
    if last >= SLOW_CONTROL_BITSTREAM_NBITS {
      return "-";
    }
    s := "";
    var n := first;
    ghost var bits := RegisterBits(bitstream[..]);
    while n <= last
      invariant if first <= last then n <= last + 1 && DigitsOf(bits, first, n, s) else n == first && s == ""
    {
      var bit := GetBit(n, bitstream, SLOW_CONTROL_BITSTREAM_NBITS);
      DigitsGrow(bits, first, n, s);
      s := s + [if bit == 1 then '1' else '0'];
      n := n + 1;
    }
  }

  ghost predicate DigitsOf(bits: seq<bool>, first: nat, n: nat, s: string) {
    first <= n <= |bits| && s == Digits(bits[first..n])
  }

  lemma {:induction false} DigitsGrow(bits: seq<bool>, first: nat, n: nat, s: string)
    requires DigitsOf(bits, first, n, s) && n < |bits|
    ensures DigitsOf(bits, first, n + 1, s + [if bits[n] then '1' else '0'])
  {
    assert bits[first..n + 1] == bits[first..n] + [bits[n]];
  }

  /** First bits of the lines the printer writes. */
  predicate IsLineStart(p: nat) {
    || (p < 256 && p % 4 == 0)
    || 256 <= p <= 265 || 297 <= p <= 315 || 318 <= p <= 320 || 323 <= p < 331
    || (331 <= p < 619 && (p - 331) % 9 == 0)
    || (619 <= p < 1099 && (p - 619) % 15 == 0)
    || 1099 <= p <= 1107 || p == 1117 || 1127 <= p < SLOW_CONTROL_BITSTREAM_NBITS
  }

  /** Widths of the blank-separated groups of bits on the line that starts at bit p. */
  function LineGroups(p: nat): (groups: seq<nat>)
    ensures groups != [] && forall g | g in groups :: g > 0
  {
    if p < 256 then [4]
    else if p == 265 then [32]
    else if p == 315 || p == 320 then [3]
    else if 331 <= p < 619 then [8, 1]
    else if 619 <= p < 1099 then [6, 6, 3]
    else if p == 1107 || p == 1117 then [2, 4, 4]
    else [1]
  }

  function LineWidth(p: nat): (width: nat)
    ensures width > 0
  {
    if p < 256 then 4
    else if p == 265 then 32
    else if p == 315 || p == 320 then 3
    else if 331 <= p < 619 then 9
    else if 619 <= p < 1099 then 15
    else if p == 1107 || p == 1117 then 10
    else 1
  }

  function Sum(groups: seq<nat>): nat {
    if groups == [] then 0 else groups[0] + Sum(groups[1..])
  }

  lemma SumOfGroups(p: nat)
    ensures Sum(LineGroups(p)) == LineWidth(p)
  {
    assert Sum([4]) == 4 && Sum([32]) == 32 && Sum([3]) == 3 && Sum([1]) == 1;
    assert [8, 1][1..] == [1] && [6, 6, 3][1..] == [6, 3] && [6, 3][1..] == [3];
    assert [2, 4, 4][1..] == [4, 4] && [4, 4][1..] == [4];
  }

  predicate IsLineEnd(q: nat) {
    q == SLOW_CONTROL_BITSTREAM_NBITS || (q < SLOW_CONTROL_BITSTREAM_NBITS && IsLineStart(q))
  }

  lemma {:induction false} ThresholdStart(p: nat)
    requires p < 256 && p % 4 == 0
    ensures IsLineEnd(p + 4)
  {
    assert (p + 4) % 4 == 0;
  }

  lemma {:induction false} BiasStart(p: nat)
    requires 331 <= p < 619 && (p - 331) % 9 == 0
    ensures IsLineEnd(p + 9)
  {
    assert (p + 9 - 331) % 9 == 0;
    assert p + 9 <= 619;
  }

  lemma {:induction false} GainStart(p: nat)
    requires 619 <= p < 1099 && (p - 619) % 15 == 0
    ensures IsLineEnd(p + 15)
  {
    assert (p + 15 - 619) % 15 == 0;
    assert p + 15 <= 1099;
  }

  lemma {:induction false} LowSwitchStart(p: nat)
    requires IsLineStart(p) && 256 <= p < 331
    ensures IsLineEnd(p + LineWidth(p))
  {
  }

  lemma {:induction false} HighSwitchStart(p: nat)
    requires IsLineStart(p) && p >= 1099
    ensures IsLineEnd(p + LineWidth(p))
  {
  }

  /** The next line starts right after a line, unless the register ends there. */
  lemma {:induction false} NextStart(p: nat)
    requires IsLineStart(p)
    ensures IsLineEnd(p + LineWidth(p))
  {
    if p < 256 {
      ThresholdStart(p);
    } else if p < 331 {
      LowSwitchStart(p);
    } else if p < 619 {
      BiasStart(p);
    } else if p < 1099 {
      GainStart(p);
    } else {
      HighSwitchStart(p);
    }
  }

  /** No line starts inside another. */
  lemma {:induction false} NoStartInside(p: nat, r: nat)
    requires IsLineStart(p) && p < r < p + LineWidth(p)
    ensures !IsLineStart(r)
  {
    if p < 256 {
      BetweenMultiples(p, r, 4);
    } else if 331 <= p < 619 {
      BetweenMultiples(p - 331, r - 331, 9);
    } else if 619 <= p < 1099 {
      BetweenMultiples(p - 619, r - 619, 15);
    }
  }

  lemma {:induction false} BetweenMultiples(a: nat, b: nat, m: nat)
    requires m > 0 && a % m == 0 && a < b < a + m
    ensures b % m != 0
  {
    Bits.ModUnique(b, m, a / m, b - a);
  }

  /** Lines follow one another without gap up to the end of the register. */
  lemma {:induction false} NextLine(p: nat)
    requires IsLineStart(p)
    ensures var q := p + LineWidth(p);
            && q <= SLOW_CONTROL_BITSTREAM_NBITS
            && (q == SLOW_CONTROL_BITSTREAM_NBITS || IsLineStart(q))
            && forall r | p < r < q :: !IsLineStart(r)
  {
    NextStart(p);
    forall r | p < r < p + LineWidth(p)
      ensures !IsLineStart(r)
    {
      NoStartInside(p, r);
    }
  }

  function LineBody(bits: seq<bool>, groups: seq<nat>): string
    requires groups != [] && Sum(groups) <= |bits|
  {
    if |groups| == 1 then Digits(bits[..groups[0]])
    else Digits(bits[..groups[0]]) + " " + LineBody(bits[groups[0]..], groups[1..])
  }

  /** What follows the bits on the line that starts at bit p. */
  function Tail(separator: string, comments: nat -> string, p: nat): string {
    separator + comments(p)
  }

  /** The text printed from bit p on; the comment of a line is named by the line's first bit. */
  function Printed(bits: seq<bool>, p: nat, separator: string, comments: nat -> string): string
    requires |bits| == SLOW_CONTROL_BITSTREAM_NBITS
    requires p == |bits| || IsLineStart(p)
    decreases |bits| - p
  {
    if p == |bits| then ""
    else
      NextLine(p);
      SumOfGroups(p);
      LineBody(bits[p..], LineGroups(p)) + Tail(separator, comments, p) + "\n"
      + Printed(bits, p + LineWidth(p), separator, comments)
  }

  method PrintGroups(bitstream: array<bv8>, p: nat, groups: seq<nat>) returns (s: string)
    requires 8 * bitstream.Length == SLOW_CONTROL_BITSTREAM_NBITS
    requires groups != [] && p + Sum(groups) <= SLOW_CONTROL_BITSTREAM_NBITS
    requires forall g | g in groups :: g > 0
    ensures s == LineBody(RegisterBits(bitstream[..])[p..], groups)
    decreases |groups|
  {
    ghost var bits := RegisterBits(bitstream[..]);
    assert groups[0] in groups && Sum(groups) == groups[0] + Sum(groups[1..]);
    s := BitsToASCII(bitstream, p, p + groups[0] - 1);
    assert bits[p..][..groups[0]] == bits[p..p + groups[0]];
    if |groups| > 1 {
      assert forall g | g in groups[1..] :: g in groups;
      var rest := PrintGroups(bitstream, p + groups[0], groups[1..]);
      assert bits[p..][groups[0]..] == bits[p + groups[0]..];
      s := s + " " + rest;
    }
  }

  /** GetBitStreamString, its line layout read from a table instead of written out line by line. */
  method GetBitStreamString(bitstream: array<bv8>, separator: string, comments: nat -> string) returns (s: string)
    requires 8 * bitstream.Length == SLOW_CONTROL_BITSTREAM_NBITS
    ensures s == Printed(RegisterBits(bitstream[..]), 0, separator, comments)
  {
    ghost var bits := RegisterBits(bitstream[..]);
    var p := 0;
    s := "";
    while p < SLOW_CONTROL_BITSTREAM_NBITS
      invariant p == SLOW_CONTROL_BITSTREAM_NBITS || IsLineStart(p)
      invariant s + Printed(bits, p, separator, comments) == Printed(bits, 0, separator, comments)
      decreases SLOW_CONTROL_BITSTREAM_NBITS - p
    {
      NextLine(p);
      SumOfGroups(p);
      var body := PrintGroups(bitstream, p, LineGroups(p));
      var line := body + Tail(separator, comments, p) + "\n";
      Associate(s, line, Printed(bits, p + LineWidth(p), separator, comments));
      s := s + line;
      p := p + LineWidth(p);
    }
  }

  lemma {:induction false} HeadBitsStep(c: char, rest: string)
    ensures IsBit(c) ==> HeadBits([c] + rest) == [c == '1'] + HeadBits(rest)
    ensures c == ' ' ==> HeadBits([c] + rest) == HeadBits(rest)
  {
    assert ([c] + rest)[1..] == rest;
  }

  lemma {:induction false} HeadBitsOfDigits(bits: seq<bool>, rest: string)
    ensures HeadBits(Digits(bits) + rest) == bits + HeadBits(rest)
  {
    if bits == [] {
      assert Digits(bits) + rest == rest;
    } else {
      var c, more := Digits(bits)[0], Digits(bits[1..]) + rest;
      HeadBitsOfDigits(bits[1..], rest);
      HeadBitsStep(c, more);
      assert Digits(bits) + rest == [c] + more;
      assert bits + HeadBits(rest) == [bits[0]] + (bits[1..] + HeadBits(rest));
    }
  }

  /** A group of bits and the blank after it add those bits. */
  lemma {:induction false} HeadBitsOfGroup(bits: seq<bool>, body: string, tail: string)
    ensures HeadBits(Digits(bits) + " " + body + tail) == bits + HeadBits(body + tail)
  {
    HeadBitsStep(' ', body + tail);
    HeadBitsOfDigits(bits, " " + (body + tail));
    Associate(Digits(bits) + " ", body, tail);
    Associate(Digits(bits), " ", body + tail);
  }

  lemma {:induction false} JoinSlices(bits: seq<bool>, g: nat, n: nat, head: seq<bool>)
    requires g + n <= |bits|
    ensures bits[..g] + (bits[g..][..n] + head) == bits[..g + n] + head
  {
    assert bits[..g + n] == bits[..g] + bits[g..][..n];
  }

  lemma {:induction false} HeadBitsOfLine(bits: seq<bool>, groups: seq<nat>, tail: string)
    requires groups != [] && Sum(groups) <= |bits|
    ensures HeadBits(LineBody(bits, groups) + tail) == bits[..Sum(groups)] + HeadBits(tail)
  {
    var g := groups[0];
    if |groups| == 1 {
      HeadBitsOfDigits(bits[..g], tail);
      assert groups[1..] == [];
    } else {
      HeadBitsOfLine(bits[g..], groups[1..], tail);
      HeadBitsOfGroup(bits[..g], LineBody(bits[g..], groups[1..]), tail);
      JoinSlices(bits, g, Sum(groups[1..]), HeadBits(tail));
    }
  }

  lemma {:induction false} BodyIsOneLine(bits: seq<bool>, groups: seq<nat>)
    requires groups != [] && Sum(groups) <= |bits|
    ensures '\n' !in LineBody(bits, groups)
  {
    if |groups| > 1 {
      BodyIsOneLine(bits[groups[0]..], groups[1..]);
    }
  }

  /** The part of a printed line after its bits adds no bit of its own. */
  predicate Quiet(separator: string, comments: nat -> string, p: nat) {
    HeadBits(Tail(separator, comments, p)) == []
  }

  /** Neither the separator nor any comment breaks the line. */
  ghost predicate OneLine(separator: string, comments: nat -> string) {
    '\n' !in separator && forall p :: '\n' !in comments(p)
  }

  predicate AllQuiet(separator: string, comments: nat -> string, p: nat)
    requires p == SLOW_CONTROL_BITSTREAM_NBITS || IsLineStart(p)
    decreases SLOW_CONTROL_BITSTREAM_NBITS - p
  {
    p == SLOW_CONTROL_BITSTREAM_NBITS ||
    (NextLine(p); Quiet(separator, comments, p) && AllQuiet(separator, comments, p + LineWidth(p)))
  }

  lemma {:induction false} AllQuietMeansEachLine(separator: string, comments: nat -> string, p: nat)
    requires p == SLOW_CONTROL_BITSTREAM_NBITS || IsLineStart(p)
    ensures AllQuiet(separator, comments, p) <==>
            forall q: nat | q >= p && IsLineStart(q) :: Quiet(separator, comments, q)
    decreases SLOW_CONTROL_BITSTREAM_NBITS - p
  {
    if p < SLOW_CONTROL_BITSTREAM_NBITS {
      NextLine(p);
      AllQuietMeansEachLine(separator, comments, p + LineWidth(p));
    }
  }

  /** Reading back a printed register gives its bits, and more than its bits if some line is not quiet. */
  lemma {:induction false} PrintedReadsBack(bits: seq<bool>, p: nat, separator: string, comments: nat -> string)
    requires |bits| == SLOW_CONTROL_BITSTREAM_NBITS
    requires p == |bits| || IsLineStart(p)
    requires OneLine(separator, comments)
    ensures var read := ReadableBits(Printed(bits, p, separator, comments));
            if AllQuiet(separator, comments, p) then read == bits[p..] else |read| > |bits| - p
    decreases |bits| - p
  {
    if p < |bits| {
      NextLine(p);
      SumOfGroups(p);
      var q, tail := p + LineWidth(p), Tail(separator, comments, p);
      assert '\n' !in tail by {
        assert '\n' !in comments(p);
      }
      PrintedReadsBack(bits, q, separator, comments);
      PrintedLineReadsBack(bits[p..], LineGroups(p), tail, Printed(bits, q, separator, comments));
      JoinLines(bits, p, q, HeadBits(tail), ReadableBits(Printed(bits, q, separator, comments)));
    }
  }

  lemma JoinLines(bits: seq<bool>, p: nat, q: nat, head: seq<bool>, rest: seq<bool>)
    requires p < q <= |bits|
    ensures |bits[p..][..q - p] + head + rest| == q - p + |head| + |rest|
    ensures head == [] && rest == bits[q..] ==> bits[p..][..q - p] + head + rest == bits[p..]
  {
  }

  lemma PrintedLineReadsBack(bits: seq<bool>, groups: seq<nat>, tail: string, rest: string)
    requires groups != [] && Sum(groups) <= |bits| && '\n' !in tail
    ensures ReadableBits(LineBody(bits, groups) + tail + "\n" + rest)
            == bits[..Sum(groups)] + HeadBits(tail) + ReadableBits(rest)
  {
    HeadBitsOfLine(bits, groups, tail);
    BodyIsOneLine(bits, groups);
    ReadableLine(LineBody(bits, groups) + tail, rest);
  }

  /**
   * Round trip of the printer and the parser for every image: the printed text parses exactly
   * when no line's separator and comment start with bits, and an image parsed from it is the printed one.
   */
  lemma {:induction false} ReloadPrinted(image: Image, parsed: Image, separator: string, comments: nat -> string)
    requires 8 * |image| == SLOW_CONTROL_BITSTREAM_NBITS && |parsed| == |image|
    requires OneLine(separator, comments)
    ensures var text := Printed(RegisterBits(image), 0, separator, comments);
            && (|ReadableBits(text)| == SLOW_CONTROL_BITSTREAM_NBITS <==>
                forall q: nat | IsLineStart(q) :: Quiet(separator, comments, q))
            && (RegisterBits(parsed) == ReadableBits(text) ==> parsed == image)
  {
    var bits := RegisterBits(image);
    PrintedReadsBack(bits, 0, separator, comments);
    AllQuietMeansEachLine(separator, comments, 0);
    assert bits[0..] == bits;
    if RegisterBits(parsed) == ReadableBits(Printed(bits, 0, separator, comments)) {
      ImageExtensional(parsed, image);
    }
  }

  /** A separator whose first non-blank character is foreign makes every comment harmless. */
  lemma {:induction false} ForeignSeparatorIsQuiet(separator: string, i: nat, comment: string)
    requires i < |separator| && separator[i] != ' ' && !IsBit(separator[i])
    requires forall j | 0 <= j < i :: separator[j] == ' '
    ensures HeadBits(separator + comment) == []
  {
    if i > 0 {
      assert (separator + comment)[1..] == separator[1..] + comment;
      ForeignSeparatorIsQuiet(separator[1..], i - 1, comment);
    }
  }

  lemma {:induction false} DefaultSeparatorIsQuiet(comments: nat -> string)
    ensures AllQuiet(" # ", comments, 0)
  {
    forall q: nat | IsLineStart(q)
      ensures Quiet(" # ", comments, q)
    {
      ForeignSeparatorIsQuiet(" # ", 1, comments(q));
    }
    AllQuietMeansEachLine(" # ", comments, 0);
  }

  /** The default separator always works, whatever the image and the comments. */
  lemma DefaultSeparatorReloads(image: Image, comments: nat -> string)
    requires 8 * |image| == SLOW_CONTROL_BITSTREAM_NBITS
    requires OneLine("", comments)
    ensures ReadableBits(Printed(RegisterBits(image), 0, " # ", comments)) == RegisterBits(image)
  {
    var bits := RegisterBits(image);
    DefaultSeparatorIsQuiet(comments);
    PrintedReadsBack(bits, 0, " # ", comments);
    assert bits[0..] == bits;
  }

  /** A blank separator fails as soon as one comment starts with a bit, as "10-bit DAC1" does at bit 1107. */
  lemma BlankSeparatorFails(image: Image, comments: nat -> string)
    requires 8 * |image| == SLOW_CONTROL_BITSTREAM_NBITS
    requires OneLine("", comments)
    requires |comments(1107)| > 0 && IsBit(comments(1107)[0])
    ensures |ReadableBits(Printed(RegisterBits(image), 0, " ", comments))| > SLOW_CONTROL_BITSTREAM_NBITS
  {
    var tail := " " + comments(1107);
    assert tail[1..] == comments(1107);
    assert HeadBits(tail) == HeadBits(comments(1107));
    assert IsLineStart(1107) && !Quiet(" ", comments, 1107);
    AllQuietMeansEachLine(" ", comments, 0);
    PrintedReadsBack(RegisterBits(image), 0, " ", comments);
  }
}
