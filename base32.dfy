/**
 * The streaming base-32 encoder of pagemarks/js/base32.js (a copy of base32-js):
 * a closure state `skip`/`bits` plus an `output` buffer, driven byte by byte by
 * `readByte`, flushed by `finish`, and wrapped by `update` and `encode`.
 *
 * The reference it is proved against is the encoding of section 6 of RFC 4648
 * with the lower-case alphabet and without `=` padding: the input bits are taken
 * most significant first in groups of five, the last group filled with zeros.
 */
module Base32 {

  import opened Seqs

  /** The lower-cased alphabet of section 6 of RFC 4648 (base32.js line 25). */
  const Alphabet: string := "abcdefghijklmnopqrstuvwxyz234567"

  /** The upper-case alphabet that section 6 of RFC 4648 itself uses. */
  const UpperAlphabet: string := "ABCDEFGHIJKLMNOPQRSTUVWXYZ234567"

  /** The number of characters an unpadded encoding of `n` bytes has: ceil(8n/5). */
  function EncodedLength(n: nat): nat {
    (8 * n + 4) / 5
  }

  // ---------------------------------------------------------------------------
  // Reference definition, in the terms of section 6 of RFC 4648: the input is cut
  // into 40-bit quanta of five bytes, the last one filled with zero bytes, and
  // each quantum into eight 5-bit groups, most significant first.
  // ---------------------------------------------------------------------------

  /** Byte `q` of the input, or a zero fill byte past its end. */
  function PadByte(data: seq<bv8>, q: nat): bv8 {
    if q < |data| then data[q] else 0
  }

  /** Quantum `m`: bytes `5m` to `5m + 4` as one big-endian 40-bit value. */
  function Quantum(data: seq<bv8>, m: nat): bv40 {
    ((PadByte(data, 5 * m) as bv40) << 32) | ((PadByte(data, 5 * m + 1) as bv40) << 24)
      | ((PadByte(data, 5 * m + 2) as bv40) << 16) | ((PadByte(data, 5 * m + 3) as bv40) << 8)
      | (PadByte(data, 5 * m + 4) as bv40)
  }

  /** The `j`-th 5-bit group of a quantum, counted from the most significant end. */
  function QuantumGroup(q: bv40, j: nat): (g: bv8)
    requires j < 8
    ensures g < 32
  {
    match j
    case 0 => ((q >> 35) & 31) as bv8
    case 1 => ((q >> 30) & 31) as bv8
    case 2 => ((q >> 25) & 31) as bv8
    case 3 => ((q >> 20) & 31) as bv8
    case 4 => ((q >> 15) & 31) as bv8
    case 5 => ((q >> 10) & 31) as bv8
    case 6 => ((q >> 5) & 31) as bv8
    case 7 => (q & 31) as bv8
  }

  /** Section 6 of RFC 4648 with the lower-case alphabet, without `=` padding. */
  function Reference(data: seq<bv8>): (r: string)
    ensures |r| == EncodedLength(|data|)
  {
    seq(EncodedLength(|data|), k requires 0 <= k < EncodedLength(|data|) =>
      Alphabet[QuantumGroup(Quantum(data, k / 8), k % 8) as int])
  }

  /**
   * Section 6 of RFC 4648 as the RFC writes it: upper-case alphabet and the output
   * padded with `=` to a whole number of 8-character quanta.
   */
  function PaddedReference(data: seq<bv8>): (r: string)
    ensures |r| == 8 * ((|data| + 4) / 5)
    ensures |r| >= EncodedLength(|data|)
  {
    seq(8 * ((|data| + 4) / 5), k requires 0 <= k < 8 * ((|data| + 4) / 5) =>
      if k < EncodedLength(|data|) then UpperAlphabet[QuantumGroup(Quantum(data, k / 8), k % 8) as int] else '=')
  }

  // ---------------------------------------------------------------------------
  // The same groups, computed from a two-byte window (what the encoder sees).
  // ---------------------------------------------------------------------------

  /** The big-endian 16-bit window of two bytes. */
  function Window(hi: bv8, lo: bv8): bv16 {
    ((hi as bv16) << 8) | (lo as bv16)
  }

  /** The five bits at bit offset `o` (0 = most significant) of a 16-bit window. */
  function FiveAt(w: bv16, o: nat): (g: bv8)
    requires o < 8
    ensures g < 32
  {
    match o
    case 0 => ((w >> 11) & 31) as bv8
    case 1 => ((w >> 10) & 31) as bv8
    case 2 => ((w >> 9) & 31) as bv8
    case 3 => ((w >> 8) & 31) as bv8
    case 4 => ((w >> 7) & 31) as bv8
    case 5 => ((w >> 6) & 31) as bv8
    case 6 => ((w >> 5) & 31) as bv8
    case 7 => ((w >> 4) & 31) as bv8
  }

  /**
   * Group `k` of `data`: the five bits at offset `5k % 8` of byte `5k / 8`, spilling
   * into the next byte, or into zeros past the end.
   */
  function Group(data: seq<bv8>, k: nat): (g: bv8)
    requires 5 * k < 8 * |data|
    ensures g < 32
  {
    var i := 5 * k / 8;
    FiveAt(Window(data[i], if i + 1 < |data| then data[i + 1] else 0), 5 * k % 8)
  }

  /** Consecutive groups `from` (inclusive) to `to` (exclusive), as alphabet characters. */
  function Groups(data: seq<bv8>, from: nat, to: nat): (r: string)
    requires from <= to && 5 * to <= 8 * |data| + 4
    ensures |r| == to - from
  {
    seq(to - from, j requires 0 <= j < to - from => Alphabet[Group(data, from + j) as int])
  }

  lemma GroupsSnoc(data: seq<bv8>, from: nat, to: nat)
    requires from <= to && 5 * to < 8 * |data|
    ensures Groups(data, from, to + 1) == Groups(data, from, to) + [Alphabet[Group(data, to) as int]]
  {
  }

  /** The window formula of `Group` at byte `i`, bit offset `o`. */
  lemma GroupAt(data: seq<bv8>, k: nat, i: nat, o: nat, hi: bv8, lo: bv8)
    requires 5 * k == 8 * i + o && o < 8 && i < |data|
    requires hi == data[i] && lo == if i + 1 < |data| then data[i + 1] else 0
    ensures Group(data, k) == FiveAt(Window(hi, lo), o)
  {
    assert 5 * k / 8 == i && 5 * k % 8 == o;
  }

  /**
   * `byte >> s` of `readByte` for the shift amounts it uses (1 to 4), written with
   * constant shifts; `ShiftsAgree` shows it is the shift itself.
   */
  function ShiftRight(b: bv8, s: nat): bv32
    requires 1 <= s <= 4
  {
    match s
    case 1 => (b as bv32) >> 1
    case 2 => (b as bv32) >> 2
    case 3 => (b as bv32) >> 3
    case 4 => (b as bv32) >> 4
  }

  /** `(byte << o) & 248` of `readByte` for the offsets it uses (0 to 8), with constant shifts. */
  function ShiftMask(b: bv8, o: nat): bv32
    requires o <= 8
  {
    match o
    case 0 => (b as bv32) & 248
    case 1 => ((b as bv32) << 1) & 248
    case 2 => ((b as bv32) << 2) & 248
    case 3 => ((b as bv32) << 3) & 248
    case 4 => ((b as bv32) << 4) & 248
    case 5 => ((b as bv32) << 5) & 248
    case 6 => ((b as bv32) << 6) & 248
    case 7 => ((b as bv32) << 7) & 248
    case 8 => ((b as bv32) << 8) & 248
  }

  lemma {:induction false} ShiftsAgree(b: bv8, s: nat, o: nat)
    requires 1 <= s <= 4 && o <= 8
    ensures ShiftRight(b, s) == (b as bv32) >> s
    ensures ShiftMask(b, o) == ((b as bv32) << o) & 248
  {
    if s == 1 { } else if s == 2 { } else if s == 3 { } else { }
    if o == 0 { } else if o == 1 { } else if o == 2 { } else if o == 3 { }
    else if o == 4 { } else if o == 5 { } else if o == 6 { } else if o == 7 { } else { }
  }

  /** The value of `bits` while a carry of the low `s` bits of byte `b` is pending (`skip == -s`). */
  function Carry(b: bv8, s: nat): bv32
    requires 1 <= s <= 4
  {
    ShiftMask(b, 8 - s)
  }

  /**
   * Completing a pending carry of `s` bits of `hi` with byte `lo` (the `skip < 0` branch
   * of `readByte`) gives a byte-sized `bits` whose top five bits are the five at offset
   * `8 - s` of the two-byte window.
   */
  lemma CarriedBits(hi: bv8, lo: bv8, s: nat)
    requires 1 <= s <= 4
    ensures Carry(hi, s) | ShiftRight(lo, s) < 256
    ensures ((Carry(hi, s) | ShiftRight(lo, s)) >> 3) as bv8 == FiveAt(Window(hi, lo), 8 - s)
  {
    if s == 1 { } else if s == 2 { } else if s == 3 { } else { }
  }

  /**
   * Reading byte `b` with no carry at offset `o` (the other branch): at `o <= 3` the top
   * five bits of the new `bits` are the five at offset `o` of any window starting with
   * `b`; at `4 <= o < 8` the new `bits` is the pending carry of the low `8 - o` bits.
   */
  lemma FreshBits(b: bv8, lo: bv8, o: nat)
    requires o <= 8
    ensures ShiftMask(b, o) < 256
    ensures o <= 3 ==> (ShiftMask(b, o) >> 3) as bv8 == FiveAt(Window(b, lo), o)
  {
    if o == 0 { } else if o == 1 { } else if o == 2 { } else if o == 3 { }
    else if o == 4 { } else if o == 5 { } else if o == 6 { } else if o == 7 { } else { }
  }

  /** A carried `bits` value completed by any byte stays within one byte. */
  lemma CarriedBound(hi: bv8, lo: bv8, s: nat)
    requires 1 <= s <= 4
    ensures Carry(hi, s) | ShiftRight(lo, s) < 256
  {
    if s == 1 { } else if s == 2 { } else if s == 3 { } else { }
  }

  /** The top five bits of a byte-sized `bits` index the alphabet. */
  lemma AlphabetIndex(bits: bv32)
    requires bits < 256
    ensures (bits >> 3) as int < |Alphabet|
  {
  }

  /** An alphabet index computed as a 32-bit value equals the group it was proved to be. */
  lemma SameIndex(x: bv32, g: bv8)
    requires x < 32 && x as bv8 == g
    ensures x as int == g as int && x as int < |Alphabet|
  {
  }

  /**
   * The state of an encoder that has consumed exactly `data[..i]`: `skip` says how far
   * into the next byte the next group starts (negative while the low `-skip` bits of
   * the last byte wait in `bits`), and every group those bits determine has been
   * emitted, `handed` of them already taken out of `output`.
   */
  ghost predicate Encoding(data: seq<bv8>, i: nat, handed: nat, skip: int, bits: bv32, output: string)
  {
    i <= |data| && -4 <= skip <= 8 && bits < 256
    && 5 * (handed + |output|) == 8 * i + skip
    && (skip < 0 ==> 0 < i && bits == Carry(data[i - 1], -skip))
    && (skip > 0 ==> i < |data|)
    && output == Groups(data, handed, handed + |output|)
  }

  /** The character `readByte` emits after completing a carry of `s` bits with byte `i` is group `k`. */
  lemma CarriedChar(data: seq<bv8>, i: nat, k: nat, s: nat, hi: bv8, b: bv8)
    requires 5 * k + s == 8 * i && 1 <= s <= 4 && 0 < i < |data|
    requires hi == data[i - 1] && b == data[i]
    ensures Carry(hi, s) | ShiftRight(b, s) < 256
    ensures ((Carry(hi, s) | ShiftRight(b, s)) >> 3) as int == Group(data, k) as int
  {
    CarriedBits(hi, b, s);
    GroupAt(data, k, i - 1, 8 - s, hi, b);
    SameIndex((Carry(hi, s) | ShiftRight(b, s)) >> 3, Group(data, k));
  }

  /** The character `readByte` emits at offset `o <= 3` of byte `i` is group `k`. */
  lemma InnerChar(data: seq<bv8>, i: nat, k: nat, o: nat, b: bv8, lo: bv8)
    requires 5 * k == 8 * i + o && o <= 3 && i < |data|
    requires b == data[i] && lo == if i + 1 < |data| then data[i + 1] else 0
    ensures ShiftMask(b, o) < 256
    ensures (ShiftMask(b, o) >> 3) as int == Group(data, k) as int
  {
    FreshBits(b, lo, o);
    GroupAt(data, k, i, o, b, lo);
    SameIndex(ShiftMask(b, o) >> 3, Group(data, k));
  }

  /** Emitting group `handed + |output|` as a 32-bit alphabet index moves `skip` on by five. */
  lemma EmitStep(data: seq<bv8>, i: nat, handed: nat, skip: int, output: string, nb: bv32)
    requires i < |data| && -4 <= skip <= 3 && nb < 256
    requires 5 * (handed + |output|) == 8 * i + skip
    requires output == Groups(data, handed, handed + |output|)
    requires (nb >> 3) as int == Group(data, handed + |output|) as int
    ensures (nb >> 3) as int < |Alphabet|
    ensures Encoding(data, i, handed, skip + 5, nb, output + [Alphabet[nb >> 3]])
  {
    GroupsSnoc(data, handed, handed + |output|);
  }

  /** The `skip < 0` path of `readByte`: completing the carry with byte `i` emits the next group. */
  lemma CarriedStep(data: seq<bv8>, i: nat, handed: nat, skip: int, bits: bv32, output: string, b: bv8, s: nat)
    requires Encoding(data, i, handed, skip, bits, output) && i < |data| && b == data[i] && skip < 0 && s == -skip
    ensures bits | ShiftRight(b, s) < 256
    ensures ((bits | ShiftRight(b, s)) >> 3) as int < |Alphabet|
    ensures Encoding(data, i, handed, skip + 5, bits | ShiftRight(b, s),
                     output + [Alphabet[(bits | ShiftRight(b, s)) >> 3]])
  {
    CarriedChar(data, i, handed + |output|, s, data[i - 1], b);
    EmitStep(data, i, handed, skip, output, bits | ShiftRight(b, s));
  }

  /** The `0 <= skip <= 3` path of `readByte`: byte `i` holds the whole next group. */
  lemma InnerStep(data: seq<bv8>, i: nat, handed: nat, skip: int, bits: bv32, output: string, b: bv8, o: nat)
    requires Encoding(data, i, handed, skip, bits, output) && i < |data| && b == data[i] && o == skip <= 3
    ensures ShiftMask(b, o) < 256
    ensures (ShiftMask(b, o) >> 3) as int < |Alphabet|
    ensures Encoding(data, i, handed, skip + 5, ShiftMask(b, o), output + [Alphabet[ShiftMask(b, o) >> 3]])
  {
    InnerChar(data, i, handed + |output|, o, b, if i + 1 < |data| then data[i + 1] else 0);
    EmitStep(data, i, handed, skip, output, ShiftMask(b, o));
  }

  /** The `skip > 3` path of `readByte`: byte `i` is consumed and its low bits carried. */
  lemma ConsumeStep(data: seq<bv8>, i: nat, handed: nat, skip: int, bits: bv32, output: string, b: bv8, o: nat)
    requires Encoding(data, i, handed, skip, bits, output) && i < |data| && b == data[i] && o == skip > 3
    ensures ShiftMask(b, o) < 256
    ensures Encoding(data, i + 1, handed, skip - 8, ShiftMask(b, o), output)
  {
    FreshBits(b, 0, o);
  }

  // ---------------------------------------------------------------------------
  // The window groups are the reference groups.
  // ---------------------------------------------------------------------------

  /** The eight groups of a quantum, each read from the two-byte window it starts in. */
  lemma QuantumWindows(b0: bv8, b1: bv8, b2: bv8, b3: bv8, b4: bv8, b5: bv8)
    ensures var q := ((b0 as bv40) << 32) | ((b1 as bv40) << 24) | ((b2 as bv40) << 16)
                     | ((b3 as bv40) << 8) | (b4 as bv40);
            && QuantumGroup(q, 0) == FiveAt(Window(b0, b1), 0)
            && QuantumGroup(q, 1) == FiveAt(Window(b0, b1), 5)
            && QuantumGroup(q, 2) == FiveAt(Window(b1, b2), 2)
            && QuantumGroup(q, 3) == FiveAt(Window(b1, b2), 7)
            && QuantumGroup(q, 4) == FiveAt(Window(b2, b3), 4)
            && QuantumGroup(q, 5) == FiveAt(Window(b3, b4), 1)
            && QuantumGroup(q, 6) == FiveAt(Window(b3, b4), 6)
            && QuantumGroup(q, 7) == FiveAt(Window(b4, b5), 3)
  {
  }

  /** Group `k` is group `k % 8` of quantum `k / 8`. */
  lemma GroupInQuantum(data: seq<bv8>, k: nat)
    requires 5 * k < 8 * |data|
    ensures Group(data, k) == QuantumGroup(Quantum(data, k / 8), k % 8)
  {
    var m, j := k / 8, k % 8;
    assert k == 8 * m + j;
    QuantumWindows(PadByte(data, 5 * m), PadByte(data, 5 * m + 1), PadByte(data, 5 * m + 2),
                   PadByte(data, 5 * m + 3), PadByte(data, 5 * m + 4), PadByte(data, 5 * m + 5));
    match j
    case 0 => GroupAt(data, k, 5 * m, 0, PadByte(data, 5 * m), PadByte(data, 5 * m + 1));
    case 1 => GroupAt(data, k, 5 * m, 5, PadByte(data, 5 * m), PadByte(data, 5 * m + 1));
    case 2 => GroupAt(data, k, 5 * m + 1, 2, PadByte(data, 5 * m + 1), PadByte(data, 5 * m + 2));
    case 3 => GroupAt(data, k, 5 * m + 1, 7, PadByte(data, 5 * m + 1), PadByte(data, 5 * m + 2));
    case 4 => GroupAt(data, k, 5 * m + 2, 4, PadByte(data, 5 * m + 2), PadByte(data, 5 * m + 3));
    case 5 => GroupAt(data, k, 5 * m + 3, 1, PadByte(data, 5 * m + 3), PadByte(data, 5 * m + 4));
    case 6 => GroupAt(data, k, 5 * m + 3, 6, PadByte(data, 5 * m + 3), PadByte(data, 5 * m + 4));
    case 7 => GroupAt(data, k, 5 * m + 4, 3, PadByte(data, 5 * m + 4), PadByte(data, 5 * m + 5));
  }

  /** All groups of `data`, zero fill included, are its RFC 4648 encoding. */
  lemma GroupsReference(data: seq<bv8>)
    ensures Groups(data, 0, EncodedLength(|data|)) == Reference(data)
  {
    forall k | 0 <= k < EncodedLength(|data|)
      ensures Groups(data, 0, EncodedLength(|data|))[k] == Reference(data)[k]
    {
      GroupInQuantum(data, k);
    }
  }

  /** A carry pending at the end of the input is completed with zero bits: the last group. */
  lemma FlushBits(hi: bv8, s: nat)
    requires 1 <= s <= 4
    ensures Carry(hi, s) < 256
    ensures (Carry(hi, s) >> 3) as bv8 == FiveAt(Window(hi, 0), 8 - s)
  {
    if s == 1 { } else if s == 2 { } else if s == 3 { } else { }
  }

  /** `finish` with a pending carry emits the one group still missing. */
  lemma FlushChar(data: seq<bv8>, handed: nat, skip: int, bits: bv32, output: string)
    requires Encoding(data, |data|, handed, skip, bits, output) && skip < 0
    ensures (bits >> 3) as int < |Alphabet|
    ensures output + [Alphabet[bits >> 3]] == Groups(data, handed, EncodedLength(|data|))
  {
    var k, s := handed + |output|, -skip;
    FlushBits(data[|data| - 1], s);
    GroupAt(data, k, |data| - 1, 8 - s, data[|data| - 1], 0);
    SameIndex(bits >> 3, Group(data, k));
    GroupsSnoc(data, handed, k);
  }

  /** `finish` without a pending carry emits nothing more: every group is out. */
  lemma FlushNone(data: seq<bv8>, handed: nat, skip: int, bits: bv32, output: string)
    requires Encoding(data, |data|, handed, skip, bits, output) && skip >= 0
    ensures output == Groups(data, handed, EncodedLength(|data|))
  {
  }

  lemma GroupsAppend(data: seq<bv8>, a: nat, b: nat, c: nat)
    requires a <= b <= c && 5 * c <= 8 * |data| + 4
    ensures Groups(data, a, b) + Groups(data, b, c) == Groups(data, a, c)
  {
  }

  /** The top five bits of a window at offset 0 to 3 lie wholly in its first byte. */
  lemma FiveAtHigh(hi: bv8, lo: bv8, lo': bv8, o: nat)
    requires o <= 3
    ensures FiveAt(Window(hi, lo), o) == FiveAt(Window(hi, lo'), o)
  {
    if o == 0 { } else if o == 1 { } else if o == 2 { } else { }
  }

  /** A group that lies wholly within `data` does not change when more bytes follow. */
  lemma GroupPrefix(data: seq<bv8>, ext: seq<bv8>, k: nat)
    requires 5 * k + 5 <= 8 * |data|
    ensures Group(data, k) == Group(data + ext, k)
  {
    var i, o := 5 * k / 8, 5 * k % 8;
    var lo := if i + 1 < |data| then data[i + 1] else 0;
    var lo' := if i + 1 < |data + ext| then (data + ext)[i + 1] else 0;
    GroupAt(data, k, i, o, data[i], lo);
    GroupAt(data + ext, k, i, o, data[i], lo');
    if i + 1 == |data| {
      FiveAtHigh(data[i], lo, lo', o);
    }
  }

  /** Groups already emitted stay the same however the stream goes on. */
  lemma GroupsPrefix(data: seq<bv8>, ext: seq<bv8>, from: nat, to: nat)
    requires from <= to && 5 * to <= 8 * |data|
    ensures Groups(data, from, to) == Groups(data + ext, from, to)
  {
    forall j | 0 <= j < to - from
      ensures Groups(data, from, to)[j] == Groups(data + ext, from, to)[j]
    {
      GroupPrefix(data, ext, from + j);
    }
  }

  /** An encoder that has consumed all of `data` is in the same state for any longer input. */
  lemma EncodingExtend(data: seq<bv8>, ext: seq<bv8>, handed: nat, skip: int, bits: bv32, output: string)
    requires Encoding(data, |data|, handed, skip, bits, output)
    ensures Encoding(data + ext, |data|, handed, skip, bits, output)
  {
    GroupsPrefix(data, ext, handed, handed + |output|);
  }

  /** Taking all of `output` out keeps the state consistent; what is taken out is the next groups. */
  lemma HandOut(data: seq<bv8>, handed: nat, skip: int, bits: bv32, output: string)
    requires Encoding(data, |data|, handed, skip, bits, output)
    ensures output == Groups(data, handed, handed + |output|)
    ensures Encoding(data, |data|, handed + |output|, skip, bits, "")
    ensures 5 * (handed + |output|) <= 8 * |data|
  {
  }

  /**
   * The encoder of base32.js lines 36-77: the closure variables `skip` and `bits`
   * become fields beside `output`. The ghost fields record the bytes consumed so
   * far (`fed`), how many characters have already left `output` (`handed`), and
   * whether a flushing `update` has ended the stream (`flushed`).
   */
  class Encoder {
    var skip: int
    var bits: bv32
    var output: string
    ghost var fed: seq<bv8>
    ghost var handed: nat
    ghost var flushed: bool

    /** The fields describe an encoder that has consumed exactly `data[..i]`. */
    ghost predicate Inv(data: seq<bv8>, i: nat)
      reads this
    {
      Encoding(data, i, handed, skip, bits, output)
    }

    /** Between calls: the stream is open and every byte handed in so far is consumed. */
    ghost predicate Valid()
      reads this
    {
      !flushed && Inv(fed, |fed|)
    }

    constructor ()
      ensures Valid() && fed == [] && handed == 0 && output == ""
    {
      skip := 0;
      bits := 0;
      output := "";
      fed := [];
      handed := 0;
      flushed := false;
    }

    /**
     * `readByte` (base32.js lines 45-69): either consumes byte `data[i]` (result 1,
     * `skip` drops by 8) or emits the next group (result 0, `skip` grows by 5).
     */
    method ReadByte(b: bv8, ghost data: seq<bv8>, ghost i: nat) returns (consumed: nat)
      requires Inv(data, i) && i < |data| && b == data[i]
      modifies this`skip, this`bits, this`output
      ensures consumed <= 1 && Inv(data, i + consumed)
      ensures consumed == 0 ==> |output| == |old(output)| + 1 && skip == old(skip) + 5
      ensures consumed == 1 ==> output == old(output) && skip == old(skip) - 8
    {
      ghost var skip0, bits0, output0 := skip, bits, output;
      if skip < 0 {
        var amount: nat := -skip;
        CarriedStep(data, i, handed, skip, bits, output, b, amount);
        bits := bits | ShiftRight(b, amount);
      } else {
        var amount: nat := skip;
        if skip <= 3 {
          InnerStep(data, i, handed, skip, bits, output, b, amount);
        } else {
          ConsumeStep(data, i, handed, skip, bits, output, b, amount);
        }
        bits := ShiftMask(b, amount);
      }
      if skip > 3 {
        skip := skip - 8;
        return 1;
      }
      if skip < 4 {
        output := output + [Alphabet[bits >> 3]];
        skip := skip + 5;
      }
      return 0;
    }

    /**
     * `finish` (base32.js lines 72-76) on an encoder that has consumed all of `data`:
     * the pending output, one more character exactly when a carry is pending, and `$`
     * when `check` is set. `skip` and `bits` are not reset, so the stream is over.
     */
    method Finish(check: bool, ghost data: seq<bv8>) returns (r: string)
      requires Inv(data, |data|)
      modifies this`output, this`flushed
      ensures r == Groups(data, handed, EncodedLength(|data|)) + (if check then "$" else "")
      ensures old(skip) < 0 ==> |r| == |old(output)| + 1 + (if check then 1 else 0)
      ensures old(skip) >= 0 ==> r == old(output) + (if check then "$" else "")
      ensures output == "" && flushed
    {
      var last: string;
      if skip < 0 {
        FlushChar(data, handed, skip, bits, output);
        last := [Alphabet[bits >> 3]];
      } else {
        FlushNone(data, handed, skip, bits, output);
        last := "";
      }
      r := output + last + (if check then "$" else "");
      output := "";
      flushed := true;
    }

    /**
     * The loop of `update` (base32.js lines 89-91): `readByte` until every byte of
     * `input` is consumed. Each call consumes a byte or emits a group, so the loop
     * ends, and afterwards the encoder has consumed `data` up to the end of `input`.
     */
    method ReadInput(input: seq<bv8>, ghost data: seq<bv8>, ghost start: nat)
      requires Inv(data, start) && data == data[..start] + input
      modifies this`skip, this`bits, this`output
      ensures Inv(data, |data|)
    {
      var i: nat := 0;
      while i < |input|
        invariant i <= |input| && Inv(data, start + i)
        decreases 16 * (|input| - i) + 8 - skip
      {
        assert input[i] == data[start + i];
        var consumed := ReadByte(input[i], data, start + i);
        i := i + consumed;
      }
    }

    /**
     * `update` (base32.js lines 88-99): feeds every byte of `input` through `readByte`,
     * hands out all output so far and, with `flush`, appends `finish()`. What comes out
     * is the next run of groups of everything fed since construction, and with `flush`
     * all groups up to the end, zero fill included.
     */
    method Update(input: seq<bv8>, flush: bool) returns (r: string)
      requires Valid()
      modifies this
      ensures fed == old(fed) + input
      ensures flush ==> flushed && output == "" && r == Groups(fed, old(handed), EncodedLength(|fed|))
      ensures !flush ==> Valid() && output == "" && r == Groups(fed, old(handed), handed)
    {
      r := Feed(input);
      if flush {
        var tail := Finish(false, fed);
        GroupsAppend(fed, old(handed), handed, EncodedLength(|fed|));
        r := r + tail;
      }
    }

    /** The loop of `update` over `input`, and the output so far handed out. */
    method Feed(input: seq<bv8>) returns (r: string)
      requires Valid()
      modifies this
      ensures Valid() && fed == old(fed) + input && output == ""
      ensures r == Groups(fed, old(handed), handed) && handed == old(handed) + |r|
    {
      ghost var data := fed + input;
      EncodingExtend(fed, input, handed, skip, bits, output);
      assert data[..|fed|] == fed;
      ReadInput(input, data, |fed|);
      HandOut(data, handed, skip, bits, output);
      r := output;
      output := "";
      handed := handed + |r|;
      fed := data;
    }
  }

  /** `encode` (base32.js lines 112-116): a fresh encoder, one flushing `update`. */
  method Encode(input: seq<bv8>) returns (r: string)
    ensures r == Reference(input)
    ensures |r| == EncodedLength(|input|)
  {
    var encoder := new Encoder();
    r := encoder.Update(input, true);
    GroupsReference(input);
  }

  /**
   * The streaming use of base32.js lines 28-35: one encoder, one `update` per chunk
   * and a flush on the last. The pieces put together are the encoding of the
   * concatenated input.
   */
  method EncodeChunks(chunks: seq<seq<bv8>>) returns (pieces: seq<string>)
    requires |chunks| > 0
    ensures |pieces| == |chunks|
    ensures Concat(pieces) == Reference(Concat(chunks))
  {
    var encoder := new Encoder();
    pieces := [];
    var j := 0;
    while j < |chunks| - 1
      invariant j <= |chunks| - 1 && |pieces| == j
      invariant encoder.Valid() && encoder.output == "" && encoder.fed == Concat(chunks[..j])
      invariant Concat(pieces) == Groups(encoder.fed, 0, encoder.handed)
      invariant 5 * encoder.handed <= 8 * |encoder.fed|
    {
      ghost var before, handed := encoder.fed, encoder.handed;
      var piece := encoder.Update(chunks[j], false);
      GroupsPrefix(before, chunks[j], 0, handed);
      GroupsAppend(encoder.fed, 0, handed, encoder.handed);
      ConcatSnoc(pieces, piece);
      ConcatSnoc(chunks[..j], chunks[j]);
      assert chunks[..j + 1] == chunks[..j] + [chunks[j]];
      pieces := pieces + [piece];
      j := j + 1;
    }
    ghost var before, handed := encoder.fed, encoder.handed;
    var last := encoder.Update(chunks[j], true);
    GroupsPrefix(before, chunks[j], 0, handed);
    GroupsAppend(encoder.fed, 0, handed, EncodedLength(|encoder.fed|));
    ConcatSnoc(pieces, last);
    ConcatSnoc(chunks[..j], chunks[j]);
    assert chunks[..j + 1] == chunks;
    GroupsReference(encoder.fed);
    pieces := pieces + [last];
  }
}
