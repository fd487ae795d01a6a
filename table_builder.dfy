/** The table builder (`writeTable` in generation/generate-dbcs.js).

    For one encoding it probes the converter on every single byte below 0x80
    (an ASCII-compatibility check that can only warn or abort), then on every
    two-byte sequence with a lead byte in 0x80..0xFF and any trail byte, in
    row-major order, and packs one little-endian UTF-16 code unit per pair
    into a 65536-byte buffer. Position in the buffer is the meaning: pair
    (a, b) lives at slot (a - 0x80) * 256 + b.

    The pure functions below (AsciiProbe, Slot, AsciiScan, PairScan, Build)
    are the specification; the method WriteTable is the imperative loop and
    is proved to compute exactly Build. */
module TableBuilder {
  import opened Converter

  /** The first lead byte of the double-byte range. */
  const LeadBase := 0x80
  /** Number of slots: 128 lead bytes times 256 trail bytes. */
  const SlotCount := 0x80 * 0x100
  /** Size of the packed table in bytes: two bytes per slot. */
  const TableSize := 0x80 * 0x100 * 2
  /** U+FFFD, stored for every pair the converter rejects with EILSEQ. */
  const Replacement: CodeUnit := 0xFFFD

  /** Why a build stops. `MustReturnSingleChar` is the generator's own
      `Error` (it has no `code`); `Thrown` is an exception of the converter
      that is not caught, or is caught and rethrown. */
  datatype Abort =
    | MustReturnSingleChar(input: seq<Byte>)
    | Thrown(input: seq<Byte>, code: ErrorCode)

  /** A probe or a scan either passes with a value or stops the build. */
  datatype Scan<T> = Pass(value: T) | Stop(reason: Abort)

  /** What a whole build yields: the uncompressed table and the ASCII bytes
      that drew a mismatch warning, or the reason it aborted. */
  datatype Outcome = Built(table: seq<Byte>, warnings: seq<Byte>) | Aborted(reason: Abort)

  /** What WriteTable reports besides its buffer. */
  datatype Status = Done(warnings: seq<Byte>) | Failed(reason: Abort)

  // ---------------------------------------------------------------------
  // One probe

  /** The ASCII probe of byte `a`: it passes with `true` when the single
      code unit differs from `a` (a logged warning), with `false` when it
      equals `a`; a result of any other length, or any converter exception
      (EILSEQ included: nothing catches it here), stops the build. */
  function AsciiProbe(conv: Conv, a: Byte): Scan<bool> {
    match conv([a])
    case Fail(code) => Stop(Thrown([a], code))
    case Ok(units) =>
      if |units| != 1 then Stop(MustReturnSingleChar([a])) else Pass(units[0] != a)
  }

  /** The code unit stored for pair (a, b), or why the build stops there. */
  function Slot(conv: Conv, a: Byte, b: Byte): Scan<CodeUnit> {
    match conv([a, b])
    case Ok(units) =>
      if |units| != 1 then Stop(MustReturnSingleChar([a, b])) else Pass(units[0])
    case Fail(code) =>
      if code == EILSEQ then Pass(Replacement) else Stop(Thrown([a, b], code))
  }

  /** The converter is usable on byte `a` in the ASCII check: one code unit. */
  predicate AsciiCompatible(conv: Conv, a: Byte) {
    conv([a]).Ok? && |conv([a]).units| == 1
  }

  /** Byte `a` converts to one code unit that is not `a` itself: the case
      `writeTable` only logs. */
  predicate Mismatch(conv: Conv, a: Byte) {
    AsciiCompatible(conv, a) && conv([a]).units[0] != a
  }

  /** The converter's answer for pair (a, b) is one the builder accepts:
      exactly one code unit, or an EILSEQ rejection. */
  predicate PairAccepted(conv: Conv, a: Byte, b: Byte) {
    (conv([a, b]).Ok? && |conv([a, b]).units| == 1) || conv([a, b]) == Fail(EILSEQ)
  }

  /** A pair's slot passes exactly when the builder accepts the pair, and
      then it holds the converter's single code unit, or U+FFFD for EILSEQ. */
  lemma SlotAccepted(conv: Conv, a: Byte, b: Byte)
    ensures Slot(conv, a, b).Pass? <==> PairAccepted(conv, a, b)
    ensures Slot(conv, a, b).Pass? ==>
      Slot(conv, a, b).value == if conv([a, b]).Ok? then conv([a, b]).units[0] else Replacement
  {
  }

  // ---------------------------------------------------------------------
  // Slot layout

  /** The row-major slot of pair (a, b): a decoder finds the pair's code
      unit at bytes 2 * SlotIndex(a, b) and 2 * SlotIndex(a, b) + 1. */
  function SlotIndex(a: Byte, b: Byte): nat
    requires LeadBase <= a
  {
    (a - LeadBase) * 0x100 + b
  }

  /** Pair (a', b') is probed before pair (a, b): a smaller lead byte, or the
      same lead byte and a smaller trail byte. */
  predicate Before(a': Byte, b': Byte, a: Byte, b: Byte) {
    a' < a || (a' == a && b' < b)
  }

  /** Slots follow the probing order exactly, and every slot is inside the
      table: the slot numbering is strict row-major order. */
  lemma SlotIndexOrder(a': Byte, b': Byte, a: Byte, b: Byte)
    requires LeadBase <= a' && LeadBase <= a
    ensures SlotIndex(a, b) < SlotCount
    ensures SlotIndex(a', b') < SlotIndex(a, b) <==> Before(a', b', a, b)
    ensures SlotIndex(a', b') == SlotIndex(a, b) <==> a' == a && b' == b
  {
  }

  /** The two bytes `buf.write(s, i, 2, 'ucs2')` stores for a one-unit string:
      low byte first. */
  function LittleEndian(c: CodeUnit): (r: seq<Byte>)
    ensures |r| == 2 && r[0] as int + 0x100 * (r[1] as int) == c
  {
    [c % 0x100, c / 0x100]
  }

  /** The code unit a decoder reads back from slot `k` of a packed table. */
  function UnitAt(t: seq<Byte>, k: nat): CodeUnit
    requires 2 * k + 1 < |t|
  {
    t[2 * k] as int + 0x100 * (t[2 * k + 1] as int)
  }

  /** Reading back what LittleEndian wrote gives the code unit again, and the
      two bytes are the only ones that do. */
  lemma LittleEndianRoundTrip(c: CodeUnit, lo: Byte, hi: Byte)
    ensures UnitAt(LittleEndian(c), 0) == c
    ensures lo as int + 0x100 * (hi as int) == c <==> [lo, hi] == LittleEndian(c)
  {
    if lo as int + 0x100 * (hi as int) == c {
      assert hi == c / 0x100 by {
        assert 0x100 * (hi as int) <= c < 0x100 * (hi as int + 1);
      }
    }
  }

  // ---------------------------------------------------------------------
  // Scans: the first n probes, stopping at the first anomaly

  /** The ASCII check over bytes 0 .. n-1: the bytes that drew a warning, in
      increasing order, or the first probe that stopped. */
  function AsciiScan(conv: Conv, n: nat): Scan<seq<Byte>>
    requires n <= 0x80
  {
    if n == 0 then Pass([])
    else
      match AsciiScan(conv, n - 1)
      case Stop(e) => Stop(e)
      case Pass(w) =>
        match AsciiProbe(conv, n - 1)
        case Stop(e) => Stop(e)
        case Pass(mismatch) => Pass(if mismatch then w + [n - 1] else w)
  }

  /** Row `a` of the pair fill over trail bytes 0 .. n-1: the packed bytes
      of the row so far, or the first pair that stopped. */
  function RowScan(conv: Conv, a: Byte, n: nat): Scan<seq<Byte>>
    requires n <= 0x100
  {
    if n == 0 then Pass([])
    else
      match RowScan(conv, a, n - 1)
      case Stop(e) => Stop(e)
      case Pass(t) =>
        match Slot(conv, a, n - 1)
        case Stop(e) => Stop(e)
        case Pass(c) => Pass(t + LittleEndian(c))
  }

  /** The pair fill over the first r rows (lead bytes 0x80 .. 0x80+r-1):
      the packed bytes so far, or the first pair that stopped. */
  function PairScan(conv: Conv, r: nat): Scan<seq<Byte>>
    requires r <= 0x80
  {
    if r == 0 then Pass([])
    else
      match PairScan(conv, r - 1)
      case Stop(e) => Stop(e)
      case Pass(t) =>
        match RowScan(conv, LeadBase + r - 1, 0x100)
        case Stop(e) => Stop(e)
        case Pass(row) => Pass(t + row)
  }

  /** The whole of `writeTable`: the ASCII check, then the pair fill. */
  function Build(conv: Conv): Outcome {
    match AsciiScan(conv, 0x80)
    case Stop(e) => Aborted(e)
    case Pass(w) =>
      match PairScan(conv, 0x80)
      case Stop(e) => Aborted(e)
      case Pass(t) => Built(t, w)
  }

  // ---------------------------------------------------------------------
  // Properties of the ASCII scan

  /** The ASCII scan passes exactly when every probe passes, and then its
      warnings are exactly the bytes whose code unit differs, strictly
      increasing. */
  lemma {:induction false} AsciiScanPass(conv: Conv, n: nat)
    requires n <= 0x80
    ensures AsciiScan(conv, n).Pass? <==> forall a :: 0 <= a < n ==> AsciiCompatible(conv, a)
    ensures AsciiScan(conv, n).Pass? ==>
      var w := AsciiScan(conv, n).value;
      (forall x :: x in w <==> 0 <= x < n && Mismatch(conv, x)) &&
      (forall i, j :: 0 <= i < j < |w| ==> w[i] < w[j]) &&
      (forall i :: 0 <= i < |w| ==> w[i] < n)
  {
    if n > 0 {
      AsciiScanPass(conv, n - 1);
      assert AsciiProbe(conv, n - 1).Pass? <==> AsciiCompatible(conv, n - 1);
      assert AsciiProbe(conv, n - 1).Pass? ==> (AsciiProbe(conv, n - 1).value <==> Mismatch(conv, n - 1));
    }
  }

  /** When the ASCII scan stops, it stops at the first byte whose probe
      stops, with that probe's reason. */
  lemma {:induction false} AsciiScanStop(conv: Conv, n: nat)
    requires n <= 0x80
    requires AsciiScan(conv, n).Stop?
    ensures exists a :: 0 <= a < n && AsciiProbe(conv, a) == Stop(AsciiScan(conv, n).reason) &&
                        (forall x :: 0 <= x < a ==> AsciiCompatible(conv, x))
  {
    var e := AsciiScan(conv, n).reason;
    if AsciiScan(conv, n - 1).Stop? {
      AsciiScanStop(conv, n - 1);
      var a :| 0 <= a < n - 1 && AsciiProbe(conv, a) == Stop(AsciiScan(conv, n - 1).reason) &&
        forall x :: 0 <= x < a ==> AsciiCompatible(conv, x);
      assert AsciiProbe(conv, a) == Stop(e);
    } else {
      AsciiScanPass(conv, n - 1);
      assert AsciiProbe(conv, n - 1) == Stop(e);
    }
  }

  /** Once the ASCII scan has stopped, probing further bytes changes nothing. */
  lemma {:induction false} AsciiStopPersists(conv: Conv, m: nat, n: nat)
    requires m <= n <= 0x80
    requires AsciiScan(conv, m).Stop?
    ensures AsciiScan(conv, n) == AsciiScan(conv, m)
    decreases n - m
  {
    if m < n {
      AsciiStopPersists(conv, m, n - 1);
    }
  }

  // ---------------------------------------------------------------------
  // Properties of one row

  /** A row scan over n trail bytes passes exactly when each of its pairs
      passes, and then it holds 2n bytes with the code unit of trail byte b
      at bytes 2b (low) and 2b+1 (high). */
  lemma {:induction false} RowScanPass(conv: Conv, a: Byte, n: nat)
    requires n <= 0x100
    ensures RowScan(conv, a, n).Pass? <==> forall b :: 0 <= b < n ==> Slot(conv, a, b).Pass?
    ensures RowScan(conv, a, n).Pass? ==>
      var t := RowScan(conv, a, n).value;
      |t| == 2 * n &&
      forall b :: 0 <= b < n ==>
        t[2 * b] == Slot(conv, a, b).value % 0x100 && t[2 * b + 1] == Slot(conv, a, b).value / 0x100
  {
    if n > 0 {
      RowScanPass(conv, a, n - 1);
      if RowScan(conv, a, n).Pass? {
        var t := RowScan(conv, a, n).value;
        var t' := RowScan(conv, a, n - 1).value;
        assert t == t' + LittleEndian(Slot(conv, a, n - 1).value);
        forall b | 0 <= b < n
          ensures t[2 * b] == Slot(conv, a, b).value % 0x100
          ensures t[2 * b + 1] == Slot(conv, a, b).value / 0x100
        {
          if b < n - 1 {
            assert t[2 * b] == t'[2 * b] && t[2 * b + 1] == t'[2 * b + 1];
          }
        }
      }
    }
  }

  /** When a row scan stops, it stops at the row's first pair that stops. */
  lemma {:induction false} RowScanStop(conv: Conv, a: Byte, n: nat)
    requires n <= 0x100
    requires RowScan(conv, a, n).Stop?
    ensures exists b :: 0 <= b < n && Slot(conv, a, b) == Stop(RowScan(conv, a, n).reason) &&
                        (forall b' :: 0 <= b' < b ==> Slot(conv, a, b').Pass?)
  {
    var e := RowScan(conv, a, n).reason;
    if RowScan(conv, a, n - 1).Stop? {
      RowScanStop(conv, a, n - 1);
      var b :| 0 <= b < n - 1 && Slot(conv, a, b) == Stop(RowScan(conv, a, n - 1).reason) &&
        forall b' :: 0 <= b' < b ==> Slot(conv, a, b').Pass?;
      assert Slot(conv, a, b) == Stop(e);
    } else {
      RowScanPass(conv, a, n - 1);
      assert Slot(conv, a, n - 1) == Stop(e);
    }
  }

  /** Once a row scan has stopped, probing further trail bytes changes nothing. */
  lemma {:induction false} RowStopPersists(conv: Conv, a: Byte, m: nat, n: nat)
    requires m <= n <= 0x100
    requires RowScan(conv, a, m).Stop?
    ensures RowScan(conv, a, n) == RowScan(conv, a, m)
    decreases n - m
  {
    if m < n {
      RowStopPersists(conv, a, m, n - 1);
    }
  }

  // ---------------------------------------------------------------------
  // Properties of the pair scan

  /** The pair scan over r rows passes exactly when every pair of those rows
      passes. */
  lemma {:induction false} PairScanPass(conv: Conv, r: nat)
    requires r <= 0x80
    ensures PairScan(conv, r).Pass? <==>
      forall a, b :: LeadBase <= a < LeadBase + r && 0 <= b < 0x100 ==> Slot(conv, a, b).Pass?
  {
    if r > 0 {
      PairScanPass(conv, r - 1);
      RowScanPass(conv, LeadBase + r - 1, 0x100);
    }
  }

  /** A passing pair scan over r rows holds 512r bytes with the code unit
      of pair (a, b) at bytes 2 * SlotIndex(a, b) (low) and
      2 * SlotIndex(a, b) + 1 (high). */
  lemma {:induction false} PairScanBytes(conv: Conv, r: nat)
    requires r <= 0x80
    requires PairScan(conv, r).Pass?
    ensures var t := PairScan(conv, r).value;
      |t| == 0x200 * r &&
      forall a, b :: LeadBase <= a < LeadBase + r && 0 <= b < 0x100 ==>
        Slot(conv, a, b).Pass? &&
        t[2 * SlotIndex(a, b)] == Slot(conv, a, b).value % 0x100 &&
        t[2 * SlotIndex(a, b) + 1] == Slot(conv, a, b).value / 0x100
  {
    if r > 0 {
      var last := LeadBase + r - 1;
      PairScanBytes(conv, r - 1);
      RowScanPass(conv, last, 0x100);
      var t := PairScan(conv, r).value;
      var t' := PairScan(conv, r - 1).value;
      var row := RowScan(conv, last, 0x100).value;
      assert t == t' + row;
      forall a, b | LeadBase <= a < LeadBase + r && 0 <= b < 0x100
        ensures Slot(conv, a, b).Pass?
        ensures t[2 * SlotIndex(a, b)] == Slot(conv, a, b).value % 0x100
        ensures t[2 * SlotIndex(a, b) + 1] == Slot(conv, a, b).value / 0x100
      {
        var off := 2 * SlotIndex(a, b);
        if a < last {
          assert t[off] == t'[off] && t[off + 1] == t'[off + 1];
        } else {
          assert t[off] == row[2 * b] && t[off + 1] == row[2 * b + 1];
        }
      }
    }
  }

  /** When the pair scan stops, it stops at the first pair in row-major
      order whose probe stops, with that probe's reason. */
  lemma {:induction false} PairScanStop(conv: Conv, r: nat)
    requires r <= 0x80
    requires PairScan(conv, r).Stop?
    ensures exists a, b :: LeadBase <= a < LeadBase + r && 0 <= b < 0x100 &&
                           Slot(conv, a, b) == Stop(PairScan(conv, r).reason) &&
                           (forall a', b' :: LeadBase <= a' && Before(a', b', a, b) ==> Slot(conv, a', b').Pass?)
  {
    var e := PairScan(conv, r).reason;
    var last := LeadBase + r - 1;
    if PairScan(conv, r - 1).Stop? {
      PairScanStop(conv, r - 1);
      var a, b :| LeadBase <= a < LeadBase + r - 1 && 0 <= b < 0x100 &&
        Slot(conv, a, b) == Stop(PairScan(conv, r - 1).reason) &&
        (forall a', b' :: LeadBase <= a' && Before(a', b', a, b) ==> Slot(conv, a', b').Pass?);
      assert Slot(conv, a, b) == Stop(e);
    } else {
      PairScanPass(conv, r - 1);
      RowScanStop(conv, last, 0x100);
      var b :| 0 <= b < 0x100 && Slot(conv, last, b) == Stop(e) &&
        forall b' :: 0 <= b' < b ==> Slot(conv, last, b').Pass?;
      assert forall a', b' :: LeadBase <= a' && Before(a', b', last, b) ==> Slot(conv, a', b').Pass?;
    }
  }

  /** Once the pair scan has stopped, probing further rows changes nothing. */
  lemma {:induction false} PairStopPersists(conv: Conv, m: nat, n: nat)
    requires m <= n <= 0x80
    requires PairScan(conv, m).Stop?
    ensures PairScan(conv, n) == PairScan(conv, m)
    decreases n - m
  {
    if m < n {
      PairStopPersists(conv, m, n - 1);
    }
  }

  // ---------------------------------------------------------------------
  // Properties of a whole build

  /** A build succeeds exactly when every ASCII byte converts to one code
      unit and every pair converts to one code unit or is rejected with
      EILSEQ. Mismatching ASCII code units do not matter. */
  lemma BuiltIff(conv: Conv)
    ensures Build(conv).Built? <==>
      (forall a :: 0 <= a < 0x80 ==> AsciiCompatible(conv, a)) &&
      (forall a, b :: LeadBase <= a < 0x100 && 0 <= b < 0x100 ==> PairAccepted(conv, a, b))
  {
    AsciiScanPass(conv, 0x80);
    PairScanPass(conv, 0x80);
    forall a, b | LeadBase <= a < 0x100 && 0 <= b < 0x100
      ensures Slot(conv, a, b).Pass? <==> PairAccepted(conv, a, b)
    {
      SlotAccepted(conv, a, b);
    }
  }

  /** A converter that answers every probe with the single unit U+3000. */
  function Ideographic(s: seq<Byte>): Conversion {
    Ok([0x3000])
  }

  /** Builds exist: the converter Ideographic builds, with a warning for
      every ASCII byte. */
  lemma IdeographicBuilds()
    ensures Build(Ideographic).Built?
    ensures forall x: Byte :: x < 0x80 ==> x in Build(Ideographic).warnings
  {
    BuiltIff(Ideographic);
    assert forall a: Byte :: AsciiCompatible(Ideographic, a);
    assert forall a: Byte, b: Byte :: PairAccepted(Ideographic, a, b);
    BuiltWarnings(Ideographic);
  }

  /** The layout of a built table: 65536 bytes; the pair (a, b) sits at byte
      offset 2 * ((a - 0x80) * 256 + b), low byte first; a one-unit result
      is stored as that unit, and an EILSEQ rejection as U+FFFD (bytes FD FF). */
  lemma BuiltLayout(conv: Conv, a: Byte, b: Byte)
    requires Build(conv).Built?
    requires LeadBase <= a
    ensures |Build(conv).table| == TableSize
    ensures var t, off := Build(conv).table, 2 * SlotIndex(a, b);
      match conv([a, b])
      case Ok(units) =>
        |units| == 1 && t[off] == units[0] % 0x100 && t[off + 1] == units[0] / 0x100 &&
        UnitAt(t, SlotIndex(a, b)) == units[0]
      case Fail(code) =>
        code == EILSEQ && t[off] == 0xFD && t[off + 1] == 0xFF &&
        UnitAt(t, SlotIndex(a, b)) == Replacement
  {
    var t := Build(conv).table;
    assert PairScan(conv, 0x80) == Pass(t);
    SlotLayout(conv, t, a, b);
  }

  /** The layout of one pair in a complete passing pair scan. */
  lemma SlotLayout(conv: Conv, t: seq<Byte>, a: Byte, b: Byte)
    requires PairScan(conv, 0x80) == Pass(t)
    requires LeadBase <= a
    ensures |t| == TableSize
    ensures var off := 2 * SlotIndex(a, b);
      match conv([a, b])
      case Ok(units) =>
        |units| == 1 && t[off] == units[0] % 0x100 && t[off + 1] == units[0] / 0x100 &&
        UnitAt(t, SlotIndex(a, b)) == units[0]
      case Fail(code) =>
        code == EILSEQ && t[off] == 0xFD && t[off + 1] == 0xFF &&
        UnitAt(t, SlotIndex(a, b)) == Replacement
  {
    PairSlotBytes(conv, t, a, b);
    SlotAccepted(conv, a, b);
    var c := Slot(conv, a, b).value;
    UnitAtDigits(t, SlotIndex(a, b), c);
    if conv([a, b]).Fail? {
      assert c == Replacement;
      assert Replacement % 0x100 == 0xFD && Replacement / 0x100 == 0xFF;
    }
  }

  /** A slot holding the low and high byte of c reads back as c. */
  lemma UnitAtDigits(t: seq<Byte>, k: nat, c: CodeUnit)
    requires 2 * k + 1 < |t|
    requires t[2 * k] == c % 0x100 && t[2 * k + 1] == c / 0x100
    ensures UnitAt(t, k) == c
  {
  }

  /** The bytes of one pair in a complete passing pair scan. */
  lemma PairSlotBytes(conv: Conv, t: seq<Byte>, a: Byte, b: Byte)
    requires PairScan(conv, 0x80) == Pass(t)
    requires LeadBase <= a
    ensures |t| == TableSize && Slot(conv, a, b).Pass?
    ensures t[2 * SlotIndex(a, b)] == Slot(conv, a, b).value % 0x100
    ensures t[2 * SlotIndex(a, b) + 1] == Slot(conv, a, b).value / 0x100
  {
    PairScanBytes(conv, 0x80);
  }

  /** A worked slot: when pair B0 A1 converts to U+554A, the table holds 4A 55
      at byte offset 24898, slot (0xB0 - 0x80) * 256 + 0xA1 = 12449. */
  lemma LayoutExample(conv: Conv)
    requires Build(conv).Built?
    requires conv([0xB0, 0xA1]) == Ok([0x554A])
    ensures |Build(conv).table| == TableSize
    ensures Build(conv).table[24898] == 0x4A && Build(conv).table[24899] == 0x55
  {
    BuiltLayout(conv, 0xB0, 0xA1);
    var t, c := Build(conv).table, conv([0xB0, 0xA1]).units[0];
    assert c == 0x554A && 2 * SlotIndex(0xB0, 0xA1) == 24898;
    assert t[24898] == c % 0x100 && t[24899] == c / 0x100;
    assert 0x554A % 0x100 == 0x4A && 0x554A / 0x100 == 0x55;
  }

  /** A rejected slot: when pair FF FF is rejected with EILSEQ, the last two
      bytes of the table are FD FF. */
  lemma RejectedExample(conv: Conv)
    requires Build(conv).Built?
    requires conv([0xFF, 0xFF]) == Fail(EILSEQ)
    ensures |Build(conv).table| == TableSize
    ensures Build(conv).table[65534] == 0xFD && Build(conv).table[65535] == 0xFF
  {
    BuiltLayout(conv, 0xFF, 0xFF);
    var t, off := Build(conv).table, 2 * SlotIndex(0xFF, 0xFF);
    assert off == 65534 && off + 1 == 65535;
    assert t[off] == 0xFD && t[off + 1] == 0xFF;
  }

  /** The warnings of a built table are exactly the ASCII bytes whose code
      unit differs from the byte, in increasing order. */
  lemma BuiltWarnings(conv: Conv)
    requires Build(conv).Built?
    ensures var w := Build(conv).warnings;
      (forall x :: 0 <= x < 0x80 ==> AsciiCompatible(conv, x) && (x in w <==> Mismatch(conv, x))) &&
      (forall i :: 0 <= i < |w| ==> w[i] < 0x80) &&
      (forall i, j :: 0 <= i < j < |w| ==> w[i] < w[j])
  {
    AsciiScanPass(conv, 0x80);
  }

  /** A build aborts with the reason of the first anomaly: the first ASCII
      byte that stops, or, when there is none, the first pair in row-major
      order that stops. */
  lemma AbortedAtFirstAnomaly(conv: Conv)
    requires Build(conv).Aborted?
    ensures var e := Build(conv).reason;
      (exists a :: 0 <= a < 0x80 && AsciiProbe(conv, a) == Stop(e) &&
                   (forall x :: 0 <= x < a ==> AsciiCompatible(conv, x))) ||
      ((forall x :: 0 <= x < 0x80 ==> AsciiCompatible(conv, x)) &&
       exists a, b :: LeadBase <= a < 0x100 && 0 <= b < 0x100 && Slot(conv, a, b) == Stop(e) &&
                      (forall a', b' :: LeadBase <= a' && Before(a', b', a, b) ==> PairAccepted(conv, a', b')))
  {
    var e := Build(conv).reason;
    if AsciiScan(conv, 0x80).Stop? {
      AsciiScanStop(conv, 0x80);
    } else {
      AsciiScanPass(conv, 0x80);
      PairScanStop(conv, 0x80);
      var a, b :| LeadBase <= a < 0x100 && 0 <= b < 0x100 && Slot(conv, a, b) == Stop(e) &&
        (forall a', b' :: LeadBase <= a' && Before(a', b', a, b) ==> Slot(conv, a', b').Pass?);
      forall a', b' | LeadBase <= a' && Before(a', b', a, b) ensures PairAccepted(conv, a', b') {
        SlotAccepted(conv, a', b');
      }
    }
  }

  /** Each kind of anomaly on a pair aborts the build, with no table: a
      result that is not exactly one code unit (none, or a surrogate pair),
      an EINVAL (incomplete sequence) and any other converter error. */
  lemma PairAnomalyAborts(conv: Conv, a: Byte, b: Byte)
    requires LeadBase <= a
    requires !PairAccepted(conv, a, b)
    ensures Build(conv).Aborted?
    ensures conv([a, b]).Ok? ==> |conv([a, b]).units| != 1
    ensures conv([a, b]).Fail? ==> conv([a, b]).code == EINVAL || conv([a, b]).code == OtherCode
  {
    BuiltIff(conv);
  }

  /** An ASCII byte converting to no unit or several, or any converter error
      on it (EILSEQ included), aborts the build. */
  lemma AsciiAnomalyAborts(conv: Conv, a: Byte)
    requires a < 0x80
    requires !AsciiCompatible(conv, a)
    ensures Build(conv).Aborted?
  {
    BuiltIff(conv);
  }

  // ---------------------------------------------------------------------
  // The imperative builder

  /** The ASCII check (the first loop of `writeTable`): probes 0x00 .. 0x7F
      in order, collecting the bytes whose code unit differs from the byte,
      and stops at the first probe that does not give exactly one unit. */
  method CheckAscii(conv: Conv) returns (result: Scan<seq<Byte>>)
    ensures result == AsciiScan(conv, 0x80)
  {
    var warnings: seq<Byte> := [];
    var a := 0;
    while a < 0x80
      invariant 0 <= a <= 0x80
      invariant AsciiScan(conv, a) == Pass(warnings)
    {
      var r := conv([a]);
      if r.Fail? {
        result := Stop(Thrown([a], r.code));
        AsciiStopPersists(conv, a + 1, 0x80);
        return;
      }
      if |r.units| != 1 {
        result := Stop(MustReturnSingleChar([a]));
        AsciiStopPersists(conv, a + 1, 0x80);
        return;
      }
      if r.units[0] != a {
        warnings := warnings + [a];
      }
      a := a + 1;
    }
    result := Pass(warnings);
  }

  /** What the pair fill reports besides the buffer it wrote. */
  datatype Fill = Filled | FillStopped(reason: Abort)

  /** Appending pair (a, b) to a passing row scan over b trail bytes. */
  lemma SlotStep(conv: Conv, a: Byte, b: Byte, done: seq<Byte>)
    requires RowScan(conv, a, b) == Pass(done)
    ensures RowScan(conv, a, b + 1) ==
      match Slot(conv, a, b)
      case Pass(c) => Pass(done + LittleEndian(c))
      case Stop(e) => Stop(e)
  {
  }

  /** One probe of the pair fill (the `try` block, its `catch` and the
      `buf.write` of `writeTable`): converts [a, b], and either writes the
      code unit (U+FFFD for EILSEQ) little-endian at offset i or stops with
      the anomaly. Only bytes i and i + 1 may change, and a stop changes
      nothing. */
  method FillSlot(conv: Conv, buf: array<Byte>, a: Byte, b: Byte, i: nat) returns (fill: Fill)
    requires i + 2 <= buf.Length
    modifies buf
    ensures match Slot(conv, a, b)
      case Pass(c) => fill == Filled && buf[..i + 2] == old(buf[..i]) + LittleEndian(c)
      case Stop(e) => fill == FillStopped(e)
    ensures forall k :: i + 2 <= k < buf.Length ==> buf[k] == old(buf[k])
    ensures fill.FillStopped? ==> buf[..] == old(buf[..])
  {
    var r := conv([a, b]);
    var c: CodeUnit;
    if r.Ok? {
      if |r.units| != 1 {
        return FillStopped(MustReturnSingleChar([a, b]));
      }
      c := r.units[0];
    } else if r.code == EILSEQ {
      c := Replacement;
    } else {
      return FillStopped(Thrown([a, b], r.code));
    }
    ghost var before := buf[..i];
    buf[i] := c % 0x100;
    buf[i + 1] := c / 0x100;
    assert buf[..i] == before;
    assert buf[..i + 2] == before + LittleEndian(c);
    fill := Filled;
  }

  /** One row of the pair fill (the inner loop of `writeTable`): for lead
      byte `a` and trail bytes 0x00 .. 0xFF in order, writes the pair's code
      unit (U+FFFD for EILSEQ) little-endian at offset i, starting from i0,
      and advances i by 2, stopping at the first anomaly. Bytes outside
      the row's 512 bytes are left alone, whether or not it stops. */
  method FillRow(conv: Conv, buf: array<Byte>, a: Byte, i0: nat) returns (fill: Fill)
    requires i0 + 0x200 <= buf.Length
    modifies buf
    ensures fill.Filled? <==> RowScan(conv, a, 0x100).Pass?
    ensures fill.Filled? ==> buf[..i0 + 0x200] == old(buf[..i0]) + RowScan(conv, a, 0x100).value
    ensures fill.FillStopped? ==> RowScan(conv, a, 0x100) == Stop(fill.reason)
    ensures forall k :: 0 <= k < i0 ==> buf[k] == old(buf[k])
    ensures forall k :: i0 + 0x200 <= k < buf.Length ==> buf[k] == old(buf[k])
  {
    var i := i0;
    var b: int := 0;
    ghost var prefix := buf[..i0];
    assert buf[..i] == prefix + [];
    while b < 0x100
      invariant 0 <= b <= 0x100 && i == i0 + 2 * b
      invariant RowScan(conv, a, b).Pass?
      invariant buf[..i] == prefix + RowScan(conv, a, b).value
      invariant forall k :: 0 <= k < i0 ==> buf[k] == old(buf[k])
      invariant forall k :: i0 + 0x200 <= k < buf.Length ==> buf[k] == old(buf[k])
    {
      ghost var done := RowScan(conv, a, b).value;
      fill := FillSlot(conv, buf, a, b, i);
      SlotStep(conv, a, b, done);
      if fill.FillStopped? {
        RowStopPersists(conv, a, b + 1, 0x100);
        return;
      }
      assert buf[..i + 2] == prefix + (done + LittleEndian(Slot(conv, a, b).value));
      i := i + 2;
      b := b + 1;
    }
    fill := Filled;
  }

  /** Appending a passing row LeadBase + r to a passing pair scan over r rows. */
  lemma RowStep(conv: Conv, r: nat, done: seq<Byte>, row: seq<Byte>)
    requires r < 0x80
    requires PairScan(conv, r) == Pass(done)
    requires RowScan(conv, LeadBase + r, 0x100) == Pass(row)
    ensures PairScan(conv, r + 1) == Pass(done + row)
  {
  }

  /** A stopping row LeadBase + r stops the whole pair scan with its reason. */
  lemma RowStops(conv: Conv, r: nat, done: seq<Byte>, e: Abort)
    requires r < 0x80
    requires PairScan(conv, r) == Pass(done)
    requires RowScan(conv, LeadBase + r, 0x100) == Stop(e)
    ensures PairScan(conv, 0x80) == Stop(e)
  {
    assert PairScan(conv, r + 1) == Stop(e);
    PairStopPersists(conv, r + 1, 0x80);
  }

  /** Row r of the pair fill, stated against the pair scan: when the first
      r rows already fill the buffer up to offset i = 512r, filling row r
      either extends that to i + 512 or ends the whole pair scan with its
      reason. */
  method FillLead(conv: Conv, buf: array<Byte>, r: nat, i: nat) returns (fill: Fill)
    requires r < 0x80 && i == 0x200 * r && buf.Length == TableSize
    requires PairScan(conv, r) == Pass(buf[..i])
    modifies buf
    ensures fill.Filled? ==> PairScan(conv, r + 1) == Pass(buf[..i + 0x200])
    ensures fill.FillStopped? ==> PairScan(conv, 0x80) == Stop(fill.reason)
  {
    ghost var done := buf[..i];
    ghost var row := RowScan(conv, LeadBase + r, 0x100);
    fill := FillRow(conv, buf, LeadBase + r, i);
    if row.Stop? {
      RowStops(conv, r, done, row.reason);
    } else {
      RowStep(conv, r, done, row.value);
    }
  }

  /** The pair fill (the nested loops of `writeTable`): lead bytes
      0x80 .. 0xFF in order, one row each, with the offset i carried from
      row to row; it stops at the first anomaly. When it completes, the
      whole buffer is the specified table. */
  method FillPairs(conv: Conv, buf: array<Byte>) returns (fill: Fill)
    requires buf.Length == TableSize
    modifies buf
    ensures match PairScan(conv, 0x80)
      case Pass(t) => fill == Filled && buf[..] == t
      case Stop(e) => fill == FillStopped(e)
  {
    var i := 0;
    var r := 0;
    while r < 0x80
      invariant 0 <= r <= 0x80 && i == 0x200 * r
      invariant PairScan(conv, r) == Pass(buf[..i])
    {
      fill := FillLead(conv, buf, r, i);
      if fill.FillStopped? {
        return;
      }
      i := i + 0x200;
      r := r + 1;
    }
    assert buf[..] == buf[..i];
    fill := Filled;
  }

  /** `writeTable` without its output step: allocates the 0x80 * 0x100 * 2
      byte buffer, runs the ASCII check, then the pair fill. On success the
      buffer is exactly the specified table; on failure the build ends
      there and no file is written. */
  method WriteTable(conv: Conv) returns (status: Status, buf: array<Byte>)
    ensures fresh(buf) && buf.Length == TableSize
    ensures match Build(conv)
      case Built(t, w) => status == Done(w) && buf[..] == t
      case Aborted(e) => status == Failed(e)
  {
    buf := new Byte[TableSize];
    var ascii := CheckAscii(conv);
    if ascii.Stop? {
      return Failed(ascii.reason), buf;
    }
    var fill := FillPairs(conv, buf);
    if fill.FillStopped? {
      return Failed(fill.reason), buf;
    }
    status := Done(ascii.value);
  }
}
