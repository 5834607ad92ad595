// The motion-block field scan: every width, offset, byte order and sign inside the
// 40-byte payload, decoded over the captured rows and scored as a drift candidate.

module FieldScan {
  import opened Bits
  import opened Options
  import opened Regression

  const PAYLOAD_START := 15
  const PAYLOAD_LEN := 40
  const WIDTHS: seq<nat> := [1, 2, 3, 4]

  /** One way of reading the payload; `start` counts from the payload's first byte. */
  datatype Key = Key(width: nat, start: nat, bigEndian: bool, signed: bool)

  datatype Candidate = Candidate(key: Key, r2: real, mono: real, range: int, low: int, high: int, uniq: nat)

  // ---- Decoding ---------------------------------------------------------------------------

  function Reversed<T>(s: seq<T>): (r: seq<T>)
    ensures |r| == |s|
    ensures forall i :: 0 <= i < |s| ==> r[i] == s[|s| - 1 - i]
  {
    if s == [] then [] else Reversed(s[1..]) + [s[0]]
  }

  function FromBytes(chunk: seq<byte>, bigEndian: bool, signed: bool): int
    requires chunk != []
  {
    var n := LittleEndian(if bigEndian then Reversed(chunk) else chunk);
    if signed then SignExtend(n, 8 * |chunk|) else n
  }

  function DecodeField(row: seq<byte>, k: Key): Option<int>
    requires k.width > 0
  {
    var at := PAYLOAD_START + k.start;
    var chunk := Slice(row, at, at + k.width);
    if |chunk| < k.width then None else Some(FromBytes(chunk, k.bigEndian, k.signed))
  }

  /** The unsigned value is the payload bytes from raw offset 15 + start on, read in the given order. */
  lemma DecodeReads(row: seq<byte>, k: Key)
    requires k.width > 0 && !k.signed && |row| >= 15 + k.start + k.width
    ensures var chunk := row[15 + k.start..15 + k.start + k.width];
      DecodeField(row, k) == Some(LittleEndian(if k.bigEndian then Reversed(chunk) else chunk))
  {
  }

  predicate Representable(v: int, k: Key)
    requires k.width > 0
  {
    if k.signed then FitsSigned(v, 8 * k.width) else 0 <= v < Pow2(8 * k.width)
  }

  /** `v` modulo the range of `width` bits. */
  function Residue(v: int, width: nat): (n: nat)
    ensures n < Pow2(width)
  {
    v % Pow2(width)
  }

  /** The bytes that stand for `v` when read as `k` says. */
  function Encoded(v: int, k: Key): (bytes: seq<byte>)
    requires k.width > 0
    ensures |bytes| == k.width
  {
    var low := BytesOf(FromNat(Residue(v, 8 * k.width), 8 * k.width));
    if k.bigEndian then Reversed(low) else low
  }

  lemma ReversedTwice<T>(s: seq<T>)
    ensures Reversed(Reversed(s)) == s
  {
  }

  lemma BytesOfAllBits(bytes: seq<byte>)
    ensures BytesOf(AllBits(bytes)) == bytes
  {
    AllBitsOfBytesOf(AllBits(bytes));
    AllBitsInjective(BytesOf(AllBits(bytes)), bytes);
  }

  lemma LittleEndianOf(n: nat, width: nat)
    requires n < Pow2(8 * width)
    ensures LittleEndian(BytesOf(FromNat(n, 8 * width))) == n
  {
    LittleEndianIsToNat(BytesOf(FromNat(n, 8 * width)));
    AllBitsOfBytesOf(FromNat(n, 8 * width));
    SmallRoundTrip(n, 8 * width);
  }

  lemma BytesOfLittleEndian(bytes: seq<byte>)
    ensures LittleEndian(bytes) < Pow2(8 * |bytes|)
    ensures BytesOf(FromNat(LittleEndian(bytes), 8 * |bytes|)) == bytes
  {
    LittleEndianIsToNat(bytes);
    ToNatBound(AllBits(bytes));
    FromToNat(AllBits(bytes));
    BytesOfAllBits(bytes);
  }

  lemma ResidueOf(n: nat, width: nat, signed: bool)
    requires width > 0 && n < Pow2(width)
    ensures Residue(if signed then SignExtend(n, width) else n, width) == n
  {
    ModSmall(n, Pow2(width));
    if signed {
      var j := SignExtendStep(n, width);
      ModShift(n, j, Pow2(width));
    }
  }

  lemma ChunkMeaning(chunk: seq<byte>, k: Key)
    requires |chunk| == k.width > 0
    ensures Representable(FromBytes(chunk, k.bigEndian, k.signed), k)
    ensures Encoded(FromBytes(chunk, k.bigEndian, k.signed), k) == chunk
  {
    var low := if k.bigEndian then Reversed(chunk) else chunk;
    BytesOfLittleEndian(low);
    ResidueOf(LittleEndian(low), 8 * k.width, k.signed);
    ReversedTwice(chunk);
  }

  /** A row decodes exactly when it covers the field, and the value is the one its bytes encode. */
  lemma DecodeMeaning(row: seq<byte>, k: Key)
    requires k.width > 0
    ensures DecodeField(row, k).Some? <==> PAYLOAD_START + k.start + k.width <= |row|
    ensures DecodeField(row, k).Some? ==>
      var at := PAYLOAD_START + k.start;
      Representable(DecodeField(row, k).value, k) && Encoded(DecodeField(row, k).value, k) == row[at..at + k.width]
  {
    var at := PAYLOAD_START + k.start;
    if at + k.width <= |row| {
      ChunkMeaning(row[at..at + k.width], k);
    }
  }

  lemma ResidueDecodes(v: int, width: nat, signed: bool)
    requires width > 0 && if signed then FitsSigned(v, width) else 0 <= v < Pow2(width)
    ensures (if signed then SignExtend(Residue(v, width), width) else Residue(v, width)) == v
  {
    if signed {
      SignExtendOfResidue(v, width);
      SignExtendOf(v, width, v, 0);
    } else {
      ModSmall(v, Pow2(width));
    }
  }

  lemma EncodedReads(v: int, k: Key)
    requires k.width > 0 && Representable(v, k)
    ensures FromBytes(Encoded(v, k), k.bigEndian, k.signed) == v
  {
    var n := Residue(v, 8 * k.width);
    LittleEndianOf(n, k.width);
    ReversedTwice(BytesOf(FromNat(n, 8 * k.width)));
    ResidueDecodes(v, 8 * k.width, k.signed);
  }

  /** A representable value survives being written into a row and read back. */
  lemma EncodeDecode(v: int, k: Key, row: seq<byte>)
    requires k.width > 0 && Representable(v, k)
    requires |row| >= PAYLOAD_START + k.start + k.width
    requires row[PAYLOAD_START + k.start..PAYLOAD_START + k.start + k.width] == Encoded(v, k)
    ensures DecodeField(row, k) == Some(v)
  {
    EncodedReads(v, k);
  }

  // ---- Monotone fraction ------------------------------------------------------------------

  function Steps(vals: seq<int>): (steps: seq<int>)
    ensures |steps| == if vals == [] then 0 else |vals| - 1
    ensures forall i :: 0 <= i < |steps| ==> steps[i] == vals[i + 1] - vals[i]
  {
    if |vals| < 2 then [] else [vals[1] - vals[0]] + Steps(vals[1..])
  }

  function NonzeroOf(steps: seq<int>): seq<int> {
    if steps == [] then [] else (if steps[0] != 0 then [steps[0]] else []) + NonzeroOf(steps[1..])
  }

  function Positives(steps: seq<int>): (n: nat)
    ensures n <= |steps|
  {
    if steps == [] then 0 else (if steps[0] > 0 then 1 else 0) + Positives(steps[1..])
  }

  function MonoFraction(vals: seq<int>): real {
    var moves := NonzeroOf(Steps(vals));
    var f := if moves == [] then 0.0 else Positives(moves) as real / |moves| as real;
    if f >= 1.0 - f then f else 1.0 - f
  }

  predicate Rising(vals: seq<int>) {
    forall i, j :: 0 <= i <= j < |vals| ==> vals[i] <= vals[j]
  }

  predicate Falling(vals: seq<int>) {
    forall i, j :: 0 <= i <= j < |vals| ==> vals[i] >= vals[j]
  }

  predicate NoneNegative(steps: seq<int>) {
    forall i :: 0 <= i < |steps| ==> steps[i] >= 0
  }

  predicate NonePositive(steps: seq<int>) {
    forall i :: 0 <= i < |steps| ==> steps[i] <= 0
  }

  lemma {:induction false} NonzeroCounts(steps: seq<int>)
    ensures Positives(NonzeroOf(steps)) == Positives(steps)
    ensures Positives(NonzeroOf(steps)) == |NonzeroOf(steps)| <==> NoneNegative(steps)
    ensures Positives(NonzeroOf(steps)) == 0 <==> NonePositive(steps)
  {
    if steps != [] {
      var t := steps[1..];
      NonzeroCounts(t);
      NonzeroCons(steps);
      assert NoneNegative(steps) <==> steps[0] >= 0 && NoneNegative(t) by {
        assert steps == [steps[0]] + t;
      }
      assert NonePositive(steps) <==> steps[0] <= 0 && NonePositive(t) by {
        assert steps == [steps[0]] + t;
      }
    }
  }

  lemma NonzeroCons(steps: seq<int>)
    requires steps != []
    ensures var x, later := steps[0], NonzeroOf(steps[1..]);
      NonzeroOf(steps) == (if x != 0 then [x] else []) + later
      && Positives(NonzeroOf(steps)) == (if x > 0 then 1 else 0) + Positives(later)
  {
    var x, later := steps[0], NonzeroOf(steps[1..]);
    if x != 0 {
      assert ([x] + later)[1..] == later;
    } else {
      assert [] + later == later;
    }
  }

  lemma {:induction false} StepsDecideOrder(vals: seq<int>)
    ensures Rising(vals) <==> NoneNegative(Steps(vals))
    ensures Falling(vals) <==> NonePositive(Steps(vals))
  {
    if NoneNegative(Steps(vals)) {
      forall i, j | 0 <= i <= j < |vals| ensures vals[i] <= vals[j] {
        Climb(vals, i, j);
      }
    }
    forall i | 0 <= i < |Steps(vals)|
      ensures Rising(vals) ==> Steps(vals)[i] >= 0
      ensures Falling(vals) ==> Steps(vals)[i] <= 0
    {
      assert Rising(vals) ==> vals[i] <= vals[i + 1];
      assert Falling(vals) ==> vals[i] >= vals[i + 1];
    }
    if NonePositive(Steps(vals)) {
      forall i, j | 0 <= i <= j < |vals| ensures vals[i] >= vals[j] {
        Descend(vals, i, j);
      }
    }
  }

  lemma {:induction false} Climb(vals: seq<int>, i: nat, j: nat)
    requires i <= j < |vals| && NoneNegative(Steps(vals))
    ensures vals[i] <= vals[j]
    decreases j - i
  {
    if i < j {
      Climb(vals, i, j - 1);
      assert Steps(vals)[j - 1] >= 0;
    }
  }

  lemma {:induction false} Descend(vals: seq<int>, i: nat, j: nat)
    requires i <= j < |vals| && NonePositive(Steps(vals))
    ensures vals[i] >= vals[j]
    decreases j - i
  {
    if i < j {
      Descend(vals, i, j - 1);
      assert Steps(vals)[j - 1] <= 0;
    }
  }

  lemma ShareOfCount(p: nat, n: nat, f: real)
    requires p <= n && n > 0 && f == p as real / n as real
    ensures 0.0 <= f <= 1.0
    ensures f == 1.0 <==> p == n
    ensures f == 0.0 <==> p == 0
  {
    QuotientRange(p as real, n as real);
    assert f * n as real == p as real;
  }

  /** The fraction lies in [1/2, 1] and is 1 exactly for a weakly monotone series. */
  lemma MonoFractionMeaning(vals: seq<int>)
    ensures 0.5 <= MonoFraction(vals) <= 1.0
    ensures MonoFraction(vals) == 1.0 <==> Rising(vals) || Falling(vals)
  {
    var moves := NonzeroOf(Steps(vals));
    NonzeroCounts(Steps(vals));
    StepsDecideOrder(vals);
    if moves != [] {
      ShareOfCount(Positives(moves), |moves|, Positives(moves) as real / |moves| as real);
    }
  }

  // ---- The fraction by counting ------------------------------------------------------------

  /** Where the series rises, and where it falls. */
  function Rises(vals: seq<int>): set<nat> {
    set i: nat | i < |vals| && RisesAt(vals, i)
  }

  function Falls(vals: seq<int>): set<nat> {
    set i: nat | i < |vals| && FallsAt(vals, i)
  }

  predicate RisesAt(vals: seq<int>, i: nat) {
    i + 1 < |vals| && vals[i] < vals[i + 1]
  }

  predicate FallsAt(vals: seq<int>, i: nat) {
    i + 1 < |vals| && vals[i] > vals[i + 1]
  }

  /** `f` of `n` is `m`. */
  predicate IsPart(f: real, n: nat, m: nat) {
    f * n as real == m as real
  }

  function UpSteps(steps: seq<int>): set<nat> {
    set i: nat | i < |steps| && steps[i] > 0
  }

  function DownSteps(steps: seq<int>): set<nat> {
    set i: nat | i < |steps| && steps[i] < 0
  }

  lemma NonzeroLast(steps: seq<int>, x: int)
    ensures Positives(steps + [x]) == Positives(steps) + if x > 0 then 1 else 0
    ensures |NonzeroOf(steps + [x])| == |NonzeroOf(steps)| + if x != 0 then 1 else 0
    decreases |steps|
  {
    if steps == [] {
      assert (steps + [x])[1..] == [];
    } else {
      assert (steps + [x])[1..] == steps[1..] + [x];
      NonzeroLast(steps[1..], x);
    }
  }

  lemma {:induction false} StepSets(steps: seq<int>)
    ensures Positives(steps) == |UpSteps(steps)|
    ensures |NonzeroOf(steps)| == |UpSteps(steps)| + |DownSteps(steps)|
    decreases |steps|
  {
    if steps != [] {
      var n := |steps| - 1;
      var before, x := steps[..n], steps[n];
      StepSets(before);
      assert steps == before + [x];
      NonzeroLast(before, x);
      OneMore(UpSteps(before), UpSteps(steps), n, x > 0);
      OneMore(DownSteps(before), DownSteps(steps), n, x < 0);
    }
  }

  lemma OneMore(before: set<nat>, after: set<nat>, n: nat, more: bool)
    requires n !in before && forall i :: i in after <==> i in before || (more && i == n)
    ensures |after| == |before| + if more then 1 else 0
  {
    assert after == before + if more then {n} else {};
  }

  lemma MoveCounts(vals: seq<int>)
    ensures Positives(NonzeroOf(Steps(vals))) == |Rises(vals)|
    ensures |NonzeroOf(Steps(vals))| == |Rises(vals)| + |Falls(vals)|
  {
    var steps := Steps(vals);
    NonzeroCounts(steps);
    StepSets(steps);
    assert UpSteps(steps) == Rises(vals);
    assert DownSteps(steps) == Falls(vals);
  }

  function Larger(a: nat, b: nat): nat {
    if a >= b then a else b
  }

  lemma LargerShare(p: nat, q: nat, f: real)
    requires p + q > 0 && f == p as real / (p + q) as real
    ensures IsPart(if f >= 1.0 - f then f else 1.0 - f, p + q, Larger(p, q))
  {
    var d := (p + q) as real;
    assert f * d == p as real;
    assert (1.0 - f) * d == d - f * d == q as real;
    ShareOrder(f, d, p as real, q as real);
  }

  lemma ShareOrder(f: real, d: real, p: real, q: real)
    requires d > 0.0 && f * d == p && (1.0 - f) * d == q
    ensures f >= 1.0 - f <==> p >= q
  {
    var g := f - (1.0 - f);
    assert g * d == p - q;
    ScaleSign(g, d);
  }

  /** The fraction of the moves is the larger of the rises and the falls; without a move it is 1. */
  lemma MonoFractionCounts(vals: seq<int>)
    ensures IsPart(MonoFraction(vals), |Rises(vals)| + |Falls(vals)|, Larger(|Rises(vals)|, |Falls(vals)|))
    ensures |Rises(vals)| + |Falls(vals)| == 0 ==> MonoFraction(vals) == 1.0
  {
    MoveCounts(vals);
    var p, q := |Rises(vals)|, |Falls(vals)|;
    if p + q > 0 {
      LargerShare(p, q, p as real / (p + q) as real);
    }
  }

  predicate Rescaled(vals: seq<int>, out: seq<int>, a: int, b: int) {
    |out| == |vals| && forall i :: 0 <= i < |vals| ==> out[i] == a * vals[i] + b
  }

  lemma {:induction false} RescaledMoves(vals: seq<int>, out: seq<int>, a: int, b: int)
    requires a != 0 && Rescaled(vals, out, a, b)
    ensures |NonzeroOf(Steps(out))| == |NonzeroOf(Steps(vals))|
    ensures Positives(NonzeroOf(Steps(out)))
      == if a > 0 then Positives(NonzeroOf(Steps(vals)))
         else |NonzeroOf(Steps(vals))| - Positives(NonzeroOf(Steps(vals)))
    decreases |vals|
  {
    if |vals| >= 2 {
      RescaledMoves(vals[1..], out[1..], a, b);
      var x, y := vals[1] - vals[0], out[1] - out[0];
      StepScaled(a, vals[0], vals[1], b, x, y);
      ConsMoves(vals);
      ConsMoves(out);
    }
  }

  lemma ConsMoves(vals: seq<int>)
    requires |vals| >= 2
    ensures var x, later := vals[1] - vals[0], NonzeroOf(Steps(vals[1..]));
      NonzeroOf(Steps(vals)) == (if x != 0 then [x] else []) + later
      && Positives(NonzeroOf(Steps(vals))) == (if x > 0 then 1 else 0) + Positives(later)
  {
    NonzeroCons(Steps(vals));
    assert Steps(vals)[1..] == Steps(vals[1..]);
  }

  lemma StepScaled(a: int, p: int, q: int, b: int, x: int, y: int)
    requires a != 0 && x == q - p && y == (a * q + b) - (a * p + b)
    ensures x == 0 <==> y == 0
    ensures a > 0 ==> (y > 0 <==> x > 0)
    ensures a < 0 ==> (y > 0 <==> x < 0)
  {
    assert y == a * x;
    if a > 0 {
      SignOfProduct(a, x);
    } else {
      SignOfProduct(-a, x);
      assert a * x == -(-a * x);
    }
  }

  lemma SignOfProduct(a: int, x: int)
    requires a > 0
    ensures x > 0 ==> a * x > 0
    ensures x < 0 ==> a * x < 0
    ensures x == 0 ==> a * x == 0
  {
  }

  lemma Complement(p: nat, n: nat)
    requires p <= n && n > 0
    ensures (n - p) as real / n as real == 1.0 - p as real / n as real
  {
    var f := p as real / n as real;
    assert f * n as real == p as real;
    assert (1.0 - f) * n as real == n as real - p as real;
    QuotientOf(1.0 - f, n as real, (n - p) as real);
  }

  /** Neither the scale, the sign nor the origin of the values changes the fraction. */
  lemma MonoFractionRescaled(vals: seq<int>, out: seq<int>, a: int, b: int)
    requires a != 0 && Rescaled(vals, out, a, b)
    ensures MonoFraction(out) == MonoFraction(vals)
  {
    RescaledMoves(vals, out, a, b);
    var moves := NonzeroOf(Steps(vals));
    if moves != [] {
      Complement(Positives(moves), |moves|);
    }
  }

  // ---- The scan ---------------------------------------------------------------------------

  function SignKeys(width: nat, start: nat, bigEndian: bool): seq<Key> {
    [Key(width, start, bigEndian, false), Key(width, start, bigEndian, true)]
  }

  function EndianKeys(width: nat, start: nat, endians: seq<bool>): seq<Key> {
    if endians == [] then []
    else EndianKeys(width, start, endians[..|endians| - 1]) + SignKeys(width, start, endians[|endians| - 1])
  }

  function Endians(width: nat): seq<bool> {
    if width == 1 then [false] else [false, true]
  }

  /** Every reading of the given width that starts before `start`, in scan order. */
  function KeysBefore(width: nat, start: nat): seq<Key> {
    if start == 0 then [] else KeysBefore(width, start - 1) + EndianKeys(width, start - 1, Endians(width))
  }

  function KeysUpTo(width: nat): seq<Key>
    requires width <= PAYLOAD_LEN
  {
    if width == 0 then [] else KeysUpTo(width - 1) + KeysBefore(width, PAYLOAD_LEN - width + 1)
  }

  function AllKeys(): seq<Key> {
    KeysUpTo(|WIDTHS|)
  }

  predicate Decodes(rows: seq<seq<byte>>, k: Key)
    requires k.width > 0
  {
    forall i :: 0 <= i < |rows| ==> DecodeField(rows[i], k).Some?
  }

  function Values(rows: seq<seq<byte>>, k: Key): (vals: seq<int>)
    requires k.width > 0 && Decodes(rows, k)
    ensures |vals| == |rows|
    ensures forall i :: 0 <= i < |rows| ==> vals[i] == DecodeField(rows[i], k).value
  {
    seq(|rows|, i requires 0 <= i < |rows| => DecodeField(rows[i], k).value)
  }

  function Indices(n: nat): (xs: seq<real>)
    ensures |xs| == n && forall i :: 0 <= i < n ==> xs[i] == i as real
  {
    seq(n, i requires 0 <= i < n => i as real)
  }

  function Reals(vals: seq<int>): (ys: seq<real>)
    ensures |ys| == |vals| && forall i :: 0 <= i < |vals| ==> ys[i] == vals[i] as real
  {
    seq(|vals|, i requires 0 <= i < |vals| => vals[i] as real)
  }

  function Uniques(vals: seq<int>): set<int> {
    set v | v in vals
  }

  function Least(vals: seq<int>): (m: int)
    requires vals != []
    ensures m in vals && forall v :: v in vals ==> m <= v
  {
    if |vals| == 1 then vals[0]
    else
      var m := Least(vals[1..]);
      assert vals == [vals[0]] + vals[1..];
      if vals[0] <= m then vals[0] else m
  }

  function Greatest(vals: seq<int>): (m: int)
    requires vals != []
    ensures m in vals && forall v :: v in vals ==> v <= m
  {
    if |vals| == 1 then vals[0]
    else
      var m := Greatest(vals[1..]);
      assert vals == [vals[0]] + vals[1..];
      if vals[0] >= m then vals[0] else m
  }

  function Scored(k: Key, vals: seq<int>): Candidate
    requires vals != []
  {
    Candidate(k, LinregR2(Indices(|vals|), Reals(vals)), MonoFraction(vals), Greatest(vals) - Least(vals),
              Least(vals), Greatest(vals), |Uniques(vals)|)
  }

  /** The field is inside every row and not constant. */
  predicate Interesting(rows: seq<seq<byte>>, k: Key)
    requires k.width > 0
  {
    Decodes(rows, k) && |Uniques(Values(rows, k))| > 1
  }

  function CandidateOf(rows: seq<seq<byte>>, k: Key): (c: Candidate)
    requires k.width > 0 && Interesting(rows, k)
    ensures c.key == k
  {
    Scored(k, Values(rows, k))
  }

  /** What one reading contributes. */
  function Contribution(rows: seq<seq<byte>>, k: Key): seq<Candidate> {
    if k.width > 0 && Interesting(rows, k) then [CandidateOf(rows, k)] else []
  }

  /** The contributions of a list of readings, in order. */
  function Collect(keys: seq<Key>, pick: Key -> seq<Candidate>): seq<Candidate> {
    if keys == [] then [] else Collect(keys[..|keys| - 1], pick) + pick(keys[|keys| - 1])
  }

  function Picker(rows: seq<seq<byte>>): Key -> seq<Candidate> {
    k => Contribution(rows, k)
  }

  function Scan(rows: seq<seq<byte>>, keys: seq<Key>): seq<Candidate> {
    Collect(keys, Picker(rows))
  }

  ghost predicate Picks(pick: Key -> seq<Candidate>, rows: seq<seq<byte>>) {
    forall k {:trigger Contribution(rows, k)} :: pick(k) == Contribution(rows, k)
  }

  lemma CollectAppend(keys: seq<Key>, k: Key, pick: Key -> seq<Candidate>)
    ensures Collect(keys + [k], pick) == Collect(keys, pick) + pick(k)
  {
    assert (keys + [k])[..|keys|] == keys;
  }

  function Sampled<T>(rows: seq<T>, cap: nat): (s: seq<T>)
    ensures s <= rows && |s| <= cap && (|s| == cap || s == rows)
  {
    if |rows| > cap then rows[..cap] else rows
  }

  /** One reading of every row; `None` when some row is too short for it. */
  method DecodeAll(rows: seq<seq<byte>>, k: Key) returns (vals: Option<seq<int>>)
    requires k.width > 0
    ensures vals == if Decodes(rows, k) then Some(Values(rows, k)) else None
  {
    var read: seq<int> := [];
    for i := 0 to |rows|
      invariant |read| == i
      invariant forall j :: 0 <= j < i ==> DecodeField(rows[j], k) == Some(read[j])
    {
      var v := DecodeField(rows[i], k);
      if v.None? { return None; }
      read := read + [v.value];
    }
    assert Decodes(rows, k) && read == Values(rows, k);
    return Some(read);
  }

  /** One reading's effect on the candidate list. */
  lemma ScanStep(rows: seq<seq<byte>>, keys: seq<Key>, k: Key, vals: Option<seq<int>>, pick: Key -> seq<Candidate>)
    requires k.width > 0 && vals == if Decodes(rows, k) then Some(Values(rows, k)) else None
    requires Picks(pick, rows)
    ensures Collect(keys + [k], pick)
      == Collect(keys, pick) + if vals.None? || |Uniques(vals.value)| <= 1 then [] else [Scored(k, vals.value)]
  {
    CollectAppend(keys, k, pick);
    assert pick(k) == Contribution(rows, k);
  }

  lemma SignStep(done: seq<Key>, width: nat, start: nat, bigEndian: bool)
    ensures done + SignKeys(width, start, bigEndian)
      == done + [Key(width, start, bigEndian, false)] + [Key(width, start, bigEndian, true)]
  {
  }

  /** Both sign readings at one place, appended to what was found before. */
  method ScanSigns(sampled: seq<seq<byte>>, width: nat, start: nat, bigEndian: bool, found: seq<Candidate>,
    ghost done: seq<Key>, ghost pick: Key -> seq<Candidate>)
    returns (candidates: seq<Candidate>)
    requires width > 0 && found == Collect(done, pick) && Picks(pick, sampled)
    ensures candidates == Collect(done + SignKeys(width, start, bigEndian), pick)
  {
    candidates := found;
    ghost var keys := done;
    for sign := 0 to 2
      invariant candidates == Collect(keys, pick)
      invariant keys == if sign == 0 then done
                        else if sign == 1 then done + [Key(width, start, bigEndian, false)]
                        else done + [Key(width, start, bigEndian, false)] + [Key(width, start, bigEndian, true)]
    {
      var k := Key(width, start, bigEndian, sign == 1);
      var vals := DecodeAll(sampled, k);
      ScanStep(sampled, keys, k, vals, pick);
      keys := keys + [k];
      if vals.None? || |Uniques(vals.value)| <= 1 {
        continue;
      }
      candidates := candidates + [Scored(k, vals.value)];
    }
    SignStep(done, width, start, bigEndian);
  }

  /** Every byte order at one place. */
  method ScanPlace(sampled: seq<seq<byte>>, width: nat, start: nat, found: seq<Candidate>, ghost done: seq<Key>,
    ghost pick: Key -> seq<Candidate>)
    returns (candidates: seq<Candidate>)
    requires width > 0 && found == Collect(done, pick) && Picks(pick, sampled)
    ensures candidates == Collect(done + EndianKeys(width, start, Endians(width)), pick)
  {
    var endians := if width == 1 then [false] else [false, true];
    candidates := found;
    NoEndians(done, width, start, endians);
    for e := 0 to |endians|
      invariant candidates == Collect(done + EndianKeys(width, start, endians[..e]), pick)
    {
      ghost var keys := done + EndianKeys(width, start, endians[..e]);
      candidates := ScanSigns(sampled, width, start, endians[e], candidates, keys, pick);
      NextEndian(done, width, start, endians, e);
    }
    assert endians[..|endians|] == endians;
  }

  /** Every place of one width. */
  method ScanWidth(sampled: seq<seq<byte>>, width: nat, found: seq<Candidate>, ghost done: seq<Key>,
    ghost pick: Key -> seq<Candidate>)
    returns (candidates: seq<Candidate>)
    requires 0 < width <= PAYLOAD_LEN && found == Collect(done, pick) && Picks(pick, sampled)
    ensures candidates == Collect(done + KeysBefore(width, PAYLOAD_LEN - width + 1), pick)
  {
    candidates := found;
    assert done + KeysBefore(width, 0) == done;
    for start := 0 to PAYLOAD_LEN - width + 1
      invariant candidates == Collect(done + KeysBefore(width, start), pick)
    {
      candidates := ScanPlace(sampled, width, start, candidates, done + KeysBefore(width, start), pick);
      StartStep(done, width, start);
    }
  }

  lemma NoEndians(here: seq<Key>, width: nat, start: nat, endians: seq<bool>)
    ensures here + EndianKeys(width, start, endians[..0]) == here
  {
  }

  lemma NextEndian(here: seq<Key>, width: nat, start: nat, endians: seq<bool>, e: nat)
    requires e < |endians|
    ensures here + EndianKeys(width, start, endians[..e]) + SignKeys(width, start, endians[e])
      == here + EndianKeys(width, start, endians[..e + 1])
  {
    EndianStep(width, start, endians, e);
  }

  lemma StartStep(done: seq<Key>, width: nat, start: nat)
    ensures done + KeysBefore(width, start) + EndianKeys(width, start, Endians(width))
      == done + KeysBefore(width, start + 1)
  {
    assert KeysBefore(width, start + 1) == KeysBefore(width, start) + EndianKeys(width, start, Endians(width));
  }

  /** Every width, from one byte up. */
  method ScanWidths(sampled: seq<seq<byte>>, widths: seq<nat>, ghost pick: Key -> seq<Candidate>)
    returns (candidates: seq<Candidate>)
    requires |widths| <= PAYLOAD_LEN && forall i :: 0 <= i < |widths| ==> widths[i] == i + 1
    requires Picks(pick, sampled)
    ensures candidates == Collect(KeysUpTo(|widths|), pick)
  {
    candidates := [];
    for i := 0 to |widths|
      invariant candidates == Collect(KeysUpTo(i), pick)
    {
      candidates := ScanWidth(sampled, widths[i], candidates, KeysUpTo(i), pick);
      WidthStep(i + 1);
    }
  }

  method ScanFields(rows: seq<seq<byte>>, sampleCap: nat) returns (candidates: seq<Candidate>)
    ensures candidates == Scan(Sampled(rows, sampleCap), AllKeys())
  {
    var sampled := if |rows| > sampleCap then rows[..sampleCap] else rows;
    candidates := ScanWidths(sampled, WIDTHS, Picker(sampled));
  }

  lemma WidthStep(width: nat)
    requires 0 < width <= PAYLOAD_LEN
    ensures KeysUpTo(width) == KeysUpTo(width - 1) + KeysBefore(width, PAYLOAD_LEN - width + 1)
  {
  }

  lemma EndianStep(width: nat, start: nat, endians: seq<bool>, e: nat)
    requires e < |endians|
    ensures EndianKeys(width, start, endians[..e + 1])
      == EndianKeys(width, start, endians[..e]) + SignKeys(width, start, endians[e])
  {
    assert endians[..e + 1][..e] == endians[..e];
  }

  // ---- What the scan covers ---------------------------------------------------------------

  predicate Readable(k: Key) {
    1 <= k.width <= 4 && k.start + k.width <= 40 && (k.width == 1 ==> !k.bigEndian)
  }

  lemma EndianKeysAre(width: nat, start: nat)
    ensures EndianKeys(width, start, Endians(width))
      == SignKeys(width, start, false) + if width == 1 then [] else SignKeys(width, start, true)
  {
    var f, t := SignKeys(width, start, false), SignKeys(width, start, true);
    EndianStep(width, start, [false], 0);
    assert [false][..1] == [false] && EndianKeys(width, start, [false]) == f;
    EndianStep(width, start, [false, true], 1);
    assert [false, true][..1] == [false] && [false, true][..2] == [false, true];
    assert EndianKeys(width, start, [false, true]) == f + t;
  }

  lemma EndianKeysListed(width: nat, start: nat, k: Key)
    ensures k in EndianKeys(width, start, Endians(width))
      <==> k.width == width && k.start == start && (width == 1 ==> !k.bigEndian)
  {
    EndianKeysAre(width, start);
  }

  lemma {:induction false} KeysBeforeListed(width: nat, start: nat, k: Key)
    ensures k in KeysBefore(width, start) <==> k.width == width && k.start < start && (width == 1 ==> !k.bigEndian)
  {
    if start > 0 {
      KeysBeforeListed(width, start - 1, k);
      EndianKeysListed(width, start - 1, k);
    }
  }

  lemma {:induction false} KeysUpToListed(width: nat, k: Key)
    requires width <= PAYLOAD_LEN
    ensures k in KeysUpTo(width)
      <==> 1 <= k.width <= width && k.start + k.width <= PAYLOAD_LEN && (k.width == 1 ==> !k.bigEndian)
  {
    if width > 0 {
      KeysUpToListed(width - 1, k);
      KeysBeforeListed(width, PAYLOAD_LEN - width + 1, k);
    }
  }

  lemma {:induction false} CollectMember(keys: seq<Key>, pick: Key -> seq<Candidate>, c: Candidate)
    ensures c in Collect(keys, pick) <==> exists k :: k in keys && c in pick(k)
    decreases |keys|
  {
    if keys != [] {
      var init, last := keys[..|keys| - 1], keys[|keys| - 1];
      CollectMember(init, pick, c);
      assert keys == init + [last];
    }
  }

  lemma ScanMember(rows: seq<seq<byte>>, keys: seq<Key>, c: Candidate)
    ensures c in Scan(rows, keys)
      <==> c.key in keys && c.key.width > 0 && Interesting(rows, c.key) && c == CandidateOf(rows, c.key)
  {
    var pick := Picker(rows);
    CollectMember(keys, pick, c);
    forall k ensures c in pick(k) <==> k == c.key && c in Contribution(rows, c.key) {
      assert pick(k) == Contribution(rows, k);
    }
  }

  /** A candidate is reported exactly for each readable field that every sampled row covers and that varies. */
  lemma ScanMeaning(rows: seq<seq<byte>>, cap: nat, c: Candidate)
    ensures var sampled := Sampled(rows, cap);
      c in Scan(sampled, AllKeys())
      <==> && Readable(c.key) && Covers(sampled, c.key) && Decodes(sampled, c.key)
           && |Uniques(Values(sampled, c.key))| > 1
           && c == Scored(c.key, Values(sampled, c.key))
  {
    ScanMember(Sampled(rows, cap), AllKeys(), c);
    KeysUpToListed(|WIDTHS|, c.key);
    if c.key.width > 0 {
      DecodesMeaning(Sampled(rows, cap), c.key);
    }
  }

  predicate Covers(rows: seq<seq<byte>>, k: Key) {
    forall i :: 0 <= i < |rows| ==> 15 + k.start + k.width <= |rows[i]|
  }

  /** The order of the scan: by width, then start, then little before big endian, then unsigned before signed. */
  predicate ScannedBefore(a: Key, b: Key) {
    a.width < b.width
    || (a.width == b.width
        && (a.start < b.start
            || (a.start == b.start
                && ((!a.bigEndian && b.bigEndian) || (a.bigEndian == b.bigEndian && !a.signed && b.signed)))))
  }

  predicate InOrder(keys: seq<Key>) {
    forall i, j :: 0 <= i < j < |keys| ==> ScannedBefore(keys[i], keys[j])
  }

  ghost predicate AllBefore(a: seq<Key>, b: seq<Key>) {
    forall k, k' :: k in a && k' in b ==> ScannedBefore(k, k')
  }

  lemma ConcatInOrder(a: seq<Key>, b: seq<Key>)
    requires InOrder(a) && InOrder(b) && AllBefore(a, b)
    ensures InOrder(a + b)
  {
    var c := a + b;
    forall i, j | 0 <= i < j < |c| ensures ScannedBefore(c[i], c[j]) {
      if i < |a| <= j {
        assert a[i] in a && b[j - |a|] in b;
      }
    }
  }

  lemma EndianKeysInOrder(width: nat, start: nat)
    ensures InOrder(EndianKeys(width, start, Endians(width)))
  {
    EndianKeysAre(width, start);
  }

  lemma PlaceAfter(a: seq<Key>, b: seq<Key>, width: nat, start: nat)
    requires a == KeysBefore(width, start) && b == EndianKeys(width, start, Endians(width))
    ensures AllBefore(a, b)
  {
    forall k, k' | k in a && k' in b ensures ScannedBefore(k, k') {
      KeysBeforeListed(width, start, k);
      EndianKeysListed(width, start, k');
    }
  }

  lemma {:induction false} KeysBeforeInOrder(width: nat, start: nat)
    ensures InOrder(KeysBefore(width, start))
  {
    if start > 0 {
      var a, b := KeysBefore(width, start - 1), EndianKeys(width, start - 1, Endians(width));
      KeysBeforeInOrder(width, start - 1);
      EndianKeysInOrder(width, start - 1);
      PlaceAfter(a, b, width, start - 1);
      ConcatInOrder(a, b);
    }
  }

  lemma WidthAfter(a: seq<Key>, b: seq<Key>, width: nat)
    requires 0 < width <= PAYLOAD_LEN
    requires a == KeysUpTo(width - 1) && b == KeysBefore(width, PAYLOAD_LEN - width + 1)
    ensures AllBefore(a, b)
  {
    forall k, k' | k in a && k' in b ensures ScannedBefore(k, k') {
      KeysUpToListed(width - 1, k);
      KeysBeforeListed(width, PAYLOAD_LEN - width + 1, k');
    }
  }

  lemma {:induction false} KeysUpToInOrder(width: nat)
    requires width <= PAYLOAD_LEN
    ensures InOrder(KeysUpTo(width))
  {
    if width > 0 {
      var a, b := KeysUpTo(width - 1), KeysBefore(width, PAYLOAD_LEN - width + 1);
      KeysUpToInOrder(width - 1);
      KeysBeforeInOrder(width, PAYLOAD_LEN - width + 1);
      WidthAfter(a, b, width);
      ConcatInOrder(a, b);
    }
  }

  function KeysOf(cs: seq<Candidate>): (keys: seq<Key>)
    ensures |keys| == |cs| && forall i :: 0 <= i < |cs| ==> keys[i] == cs[i].key
  {
    seq(|cs|, i requires 0 <= i < |cs| => cs[i].key)
  }

  /** The keys of `a` are among `keys`, and ordered like them. */
  ghost predicate Follows(a: seq<Candidate>, keys: seq<Key>) {
    InOrder(KeysOf(a)) && forall c :: c in a ==> c.key in keys
  }

  lemma {:induction false} CollectInOrder(keys: seq<Key>, rows: seq<seq<byte>>)
    requires InOrder(keys)
    ensures Follows(Scan(rows, keys), keys)
    decreases |keys|
  {
    if keys == [] {
      NothingInOrder(rows);
    } else {
      var init, last := keys[..|keys| - 1], keys[|keys| - 1];
      InOrderBefore(keys, init, last);
      CollectInOrder(init, rows);
      ScanLast(rows, keys, init, last);
      ContributionKey(rows, last);
      OneMoreInOrder(keys, init, last, Scan(rows, init), Contribution(rows, last));
    }
  }

  lemma NothingInOrder(rows: seq<seq<byte>>)
    ensures Follows(Scan(rows, []), [])
  {
  }

  lemma InOrderBefore(keys: seq<Key>, init: seq<Key>, last: Key)
    requires keys == init + [last] && InOrder(keys)
    ensures InOrder(init)
  {
    forall i, j | 0 <= i < j < |init| ensures ScannedBefore(init[i], init[j]) {
      assert keys[i] == init[i] && keys[j] == init[j];
    }
  }

  lemma ScanLast(rows: seq<seq<byte>>, keys: seq<Key>, init: seq<Key>, last: Key)
    requires keys == init + [last]
    ensures Scan(rows, keys) == Scan(rows, init) + Contribution(rows, last)
  {
    CollectAppend(init, last, Picker(rows));
  }

  lemma ContributionKey(rows: seq<seq<byte>>, k: Key)
    ensures |Contribution(rows, k)| <= 1 && forall c :: c in Contribution(rows, k) ==> c.key == k
  {
  }

  lemma OneMoreInOrder(keys: seq<Key>, init: seq<Key>, last: Key, a: seq<Candidate>, b: seq<Candidate>)
    requires keys == init + [last] && InOrder(keys) && Follows(a, init)
    requires |b| <= 1 && forall c :: c in b ==> c.key == last
    ensures Follows(a + b, keys)
  {
    forall k, k' | k in KeysOf(a) && k' in KeysOf(b) ensures ScannedBefore(k, k') {
      var i :| 0 <= i < |a| && a[i].key == k;
      assert a[i] in a && k' == last;
      var j :| 0 <= j < |init| && init[j] == k;
      assert keys[j] == k && keys[|init|] == last;
    }
    ConcatInOrder(KeysOf(a), KeysOf(b));
    assert KeysOf(a + b) == KeysOf(a) + KeysOf(b);
  }

  /** Candidates come out in scan order, so none comes out twice. */
  lemma ScanOrdered(rows: seq<seq<byte>>, cap: nat, i: nat, j: nat)
    requires i < j < |Scan(Sampled(rows, cap), AllKeys())|
    ensures var cs := Scan(Sampled(rows, cap), AllKeys()); ScannedBefore(cs[i].key, cs[j].key)
  {
    KeysUpToInOrder(|WIDTHS|);
    CollectInOrder(AllKeys(), Sampled(rows, cap));
    var cs := Scan(Sampled(rows, cap), AllKeys());
    assert KeysOf(cs)[i] == cs[i].key && KeysOf(cs)[j] == cs[j].key;
  }

  lemma DecodesMeaning(rows: seq<seq<byte>>, k: Key)
    requires k.width > 0
    ensures Decodes(rows, k) <==> Covers(rows, k)
  {
    forall i | 0 <= i < |rows|
      ensures DecodeField(rows[i], k).Some? <==> PAYLOAD_START + k.start + k.width <= |rows[i]|
    {
      DecodeMeaning(rows[i], k);
    }
  }

  // ---- What a candidate's scores say ------------------------------------------------------

  predicate StepsBy(vals: seq<int>, d: int) {
    forall i :: 0 <= i < |Steps(vals)| ==> Steps(vals)[i] == d
  }

  predicate EvenSteps(vals: seq<int>) {
    |vals| > 1 ==> StepsBy(vals, vals[1] - vals[0])
  }

  lemma SeveralMeansNotConstant(vals: seq<int>)
    requires vals != []
    ensures |Uniques(vals)| > 1 <==> !Constant(Reals(vals))
  {
    var u := Uniques(vals);
    assert vals[0] in u;
    if Constant(Reals(vals)) {
      forall v | v in u ensures v == vals[0] {
        var i :| 0 <= i < |vals| && vals[i] == v;
        assert Reals(vals)[i] == Reals(vals)[0];
      }
      assert u == {vals[0]};
    } else {
      var i, j :| 0 <= i < |vals| && 0 <= j < |vals| && Reals(vals)[i] != Reals(vals)[j];
      assert {vals[i], vals[j]} <= u;
      SubsetSize({vals[i], vals[j]}, u);
    }
  }

  lemma {:induction false} SubsetSize<T>(a: set<T>, b: set<T>)
    requires a <= b
    ensures |a| <= |b|
  {
    if a != {} {
      var x :| x in a;
      SubsetSize(a - {x}, b - {x});
    }
  }

  lemma {:induction false} ClosedForm(vals: seq<int>, d: int, i: nat)
    requires i < |vals| && StepsBy(vals, d)
    ensures vals[i] == vals[0] + i * d
  {
    if i > 0 {
      ClosedForm(vals, d, i - 1);
      assert Steps(vals)[i - 1] == d;
      OneMoreStep(i, d);
    }
  }

  lemma OneMoreStep(i: int, d: int)
    ensures i * d == (i - 1) * d + d
  {
  }

  lemma LinePoint(i: int, d: int, v: int, y: int)
    requires y == v + i * d
    ensures y as real == d as real * i as real + v as real
  {
  }

  lemma EvenStepsAreCollinear(vals: seq<int>)
    requires |vals| > 1
    ensures EvenSteps(vals) <==> Collinear(Indices(|vals|), Reals(vals))
  {
    var xs, ys := Indices(|vals|), Reals(vals);
    if EvenSteps(vals) {
      var d := vals[1] - vals[0];
      forall i | 0 <= i < |xs| ensures ys[i] == d as real * xs[i] + vals[0] as real {
        ClosedForm(vals, d, i);
        LinePoint(i, d, vals[0], vals[i]);
      }
      assert OnLine(xs, ys, d as real, vals[0] as real);
    }
    if Collinear(xs, ys) {
      var m, c :| OnLine(xs, ys, m, c);
      forall i | 0 <= i < |Steps(vals)| ensures Steps(vals)[i] == vals[1] - vals[0] {
        LineStep(xs, ys, m, c, i);
        LineStep(xs, ys, m, c, 0);
        assert (vals[i + 1] - vals[i]) as real == m == (vals[1] - vals[0]) as real;
      }
    }
  }

  lemma LineStep(xs: seq<real>, ys: seq<real>, m: real, c: real, i: nat)
    requires |xs| == |ys| && i + 1 < |xs| && OnLine(xs, ys, m, c) && xs[i + 1] == xs[i] + 1.0
    ensures ys[i + 1] - ys[i] == m
  {
    var x, x', y, y' := xs[i], xs[i + 1], ys[i], ys[i + 1];
    assert y == m * x + c && y' == m * x' + c;
    StepOf(m, x, x', y, y', c);
  }

  lemma StepOf(m: real, x: real, x': real, y: real, y': real, c: real)
    requires x' == x + 1.0 && y == m * x + c && y' == m * x' + c
    ensures y' - y == m
  {
    Regression.Distribute(m, x, 1.0);
  }

  lemma IndicesSpread(n: nat)
    requires n >= 2
    ensures Dot(Centred(Indices(n)), Centred(Indices(n))) != 0.0
  {
    ZeroSpreadMeansConstant(Indices(n));
    assert Indices(n)[0] != Indices(n)[1];
  }

  /** For three or more varying samples the fit is perfect exactly when every step is the same. */
  lemma PerfectMeansEvenSteps(vals: seq<int>)
    requires |vals| >= 3 && |Uniques(vals)| > 1
    ensures LinregR2(Indices(|vals|), Reals(vals)) == 1.0 <==> EvenSteps(vals)
    ensures EvenSteps(vals) ==> MonoFraction(vals) == 1.0
  {
    SeveralMeansNotConstant(vals);
    ZeroSpreadMeansConstant(Reals(vals));
    IndicesSpread(|vals|);
    PerfectMeansCollinear(Indices(|vals|), Reals(vals));
    EvenStepsAreCollinear(vals);
    if EvenSteps(vals) {
      EvenStepsAreMonotone(vals);
    }
  }

  lemma EvenStepsAreMonotone(vals: seq<int>)
    requires |vals| > 1 && EvenSteps(vals)
    ensures MonoFraction(vals) == 1.0
  {
    MonoFractionMeaning(vals);
    StepsDecideOrder(vals);
    assert vals[1] >= vals[0] ==> NoneNegative(Steps(vals));
    assert vals[1] <= vals[0] ==> NonePositive(Steps(vals));
  }

  /** The bounds every reported score keeps, and what its extreme values mean. */
  lemma CandidateFacts(rows: seq<seq<byte>>, k: Key)
    requires k.width > 0 && Interesting(rows, k)
    ensures var c, vals := CandidateOf(rows, k), Values(rows, k);
      && 0.0 <= c.r2 <= 1.0 && 0.5 <= c.mono <= 1.0
      && (c.mono == 1.0 <==> Rising(vals) || Falling(vals))
      && (|vals| >= 3 ==> (c.r2 == 1.0 <==> EvenSteps(vals)))
      && 0 < c.range < Pow2(8 * k.width) && c.range == c.high - c.low && c.low in vals && c.high in vals
      && (forall v :: v in vals ==> c.low <= v <= c.high) && c.uniq == |set v | v in vals|
  {
    var vals := Values(rows, k);
    R2Range(Indices(|vals|), Reals(vals));
    MonoFractionMeaning(vals);
    if |vals| >= 3 {
      PerfectMeansEvenSteps(vals);
    }
    RangeFits(rows, k);
  }

  lemma RangeFits(rows: seq<seq<byte>>, k: Key)
    requires k.width > 0 && Interesting(rows, k)
    ensures var vals := Values(rows, k); vals != [] && 0 < Greatest(vals) - Least(vals) < Pow2(8 * k.width)
  {
    var vals := Values(rows, k);
    RangePositive(vals);
    var i :| 0 <= i < |vals| && vals[i] == Least(vals);
    var j :| 0 <= j < |vals| && vals[j] == Greatest(vals);
    DecodeMeaning(rows[i], k);
    DecodeMeaning(rows[j], k);
  }

  lemma RangePositive(vals: seq<int>)
    ensures vals == [] ==> |Uniques(vals)| == 0
    ensures vals != [] ==> Greatest(vals) > Least(vals) || |Uniques(vals)| == 1
  {
    var u := Uniques(vals);
    assert vals == [] ==> u == {};
    assert vals != [] && Greatest(vals) == Least(vals) ==> u == {Least(vals)};
  }

  // ---- Classification ---------------------------------------------------------------------

  datatype Class = Drift | Stable | Bounded | Other

  function Classify(r2: real, mono: real, range: int, entropy: real): Class {
    if r2 > 0.85 && mono > 0.9 then Drift
    else if r2 < 0.15 && range < 32 && entropy < 3.0 then Stable
    else if r2 < 0.15 && range >= 32 then Bounded
    else Other
  }

  /** The squared error of the fitted line, and of the flat line through the mean. */
  function FitError(vals: seq<int>): real
    requires |vals| >= 3
  {
    IndicesSpread(|vals|);
    var xs, ys := Indices(|vals|), Reals(vals);
    SquaredError(xs, ys, Slope(xs, ys), Intercept(xs, ys, Slope(xs, ys)))
  }

  function FlatError(vals: seq<int>): real
    requires vals != []
  {
    SquaredError(Indices(|vals|), Reals(vals), 0.0, Mean(Reals(vals)))
  }

  lemma BelowShare(p: real, d: real, t: real, r: real)
    requires d > 0.0 && r == 1.0 - p / d
    ensures r > 1.0 - t <==> p < t * d
    ensures r < 1.0 - t <==> p > t * d
  {
    var q := p / d;
    assert q * d == p;
    assert (t - q) * d == t * d - p;
    ScaleSign(t - q, d);
    assert (t - q) == 0.0 ==> (t - q) * d == 0.0;
  }

  lemma FlatErrorIsSpread(vals: seq<int>)
    requires vals != []
    ensures FlatError(vals) == Dot(Centred(Reals(vals)), Centred(Reals(vals)))
  {
    var xs, ys := Indices(|vals|), Reals(vals);
    ZeroTimes(Mean(xs));
    LineError(xs, ys, 0.0, Mean(ys));
    FlatUnexplained(Dot(Centred(xs), Centred(xs)), Dot(Centred(xs), Centred(ys)), Dot(Centred(ys), Centred(ys)));
  }

  lemma FlatUnexplained(uu: real, uv: real, vv: real)
    ensures Unexplained(uu, uv, vv, 0.0) == vv
  {
    ZeroTimes(uv);
    ZeroTimes(uu);
  }

  /** The score is one minus the fitted line's share of the flat error. */
  lemma ScoreIsErrorShare(vals: seq<int>)
    requires |vals| >= 3 && |Uniques(vals)| > 1
    ensures FlatError(vals) > 0.0
    ensures LinregR2(Indices(|vals|), Reals(vals)) == 1.0 - FitError(vals) / FlatError(vals)
  {
    SeveralMeansNotConstant(vals);
    ZeroSpreadMeansConstant(Reals(vals));
    IndicesSpread(|vals|);
    R2IsBestFit(Indices(|vals|), Reals(vals), 0.0, 0.0);
    FlatErrorIsSpread(vals);
  }

  lemma ScoreMeaning(vals: seq<int>, t: real, r2: real)
    requires |vals| >= 3 && |Uniques(vals)| > 1 && r2 == LinregR2(Indices(|vals|), Reals(vals))
    ensures r2 > 1.0 - t <==> FitError(vals) < t * FlatError(vals)
    ensures r2 < 1.0 - t <==> FitError(vals) > t * FlatError(vals)
  {
    ScoreIsErrorShare(vals);
    BelowShare(FitError(vals), FlatError(vals), t, r2);
  }

  /** The two thresholds of the score, as shares of the flat error. */
  predicate ScoreCut(r2: real, fit: real, flat: real) {
    (r2 > 0.85 <==> fit < 0.15 * flat) && (r2 < 0.15 <==> fit > 0.85 * flat)
  }

  lemma ScoreCuts(vals: seq<int>, r2: real)
    requires |vals| >= 3 && |Uniques(vals)| > 1 && r2 == LinregR2(Indices(|vals|), Reals(vals))
    ensures ScoreCut(r2, FitError(vals), FlatError(vals))
  {
    ScoreMeaning(vals, 0.15, r2);
    ScoreMeaning(vals, 0.85, r2);
  }

  lemma MonoCut(vals: seq<int>)
    requires |Uniques(vals)| > 1
    ensures MonoFraction(vals) > 0.9
      <==> 10 * Larger(|Rises(vals)|, |Falls(vals)|) > 9 * (|Rises(vals)| + |Falls(vals)|)
  {
    MonoFractionCounts(vals);
    SomeMove(vals);
    NineTenths(MonoFraction(vals), |Rises(vals)| + |Falls(vals)|, Larger(|Rises(vals)|, |Falls(vals)|));
  }

  /** Drift: the line leaves less than 15% of the flat error and more than nine tenths of the moves go one
      way. Stable and bounded: it leaves more than 85%. */
  predicate ClassIs(kind: Class, fit: real, flat: real, larger: nat, moves: nat, range: int, entropy: real) {
    && (kind == Drift <==> fit < 0.15 * flat && 10 * larger > 9 * moves)
    && (kind == Stable <==> fit > 0.85 * flat && range < 32 && entropy < 3.0)
    && (kind == Bounded <==> fit > 0.85 * flat && range >= 32)
  }

  lemma ClassCases(r2: real, mono: real, range: int, entropy: real, fit: real, flat: real, larger: nat, moves: nat)
    requires ScoreCut(r2, fit, flat) && (mono > 0.9 <==> 10 * larger > 9 * moves)
    ensures ClassIs(Classify(r2, mono, range, entropy), fit, flat, larger, moves, range, entropy)
  {
  }

  /** The classes of a candidate by the errors of its lines and the directions of its moves. */
  lemma ClassMeaning(k: Key, vals: seq<int>, entropy: real)
    requires |vals| >= 3 && |Uniques(vals)| > 1
    ensures var c, r, f := Scored(k, vals), |Rises(vals)|, |Falls(vals)|;
      ClassIs(Classify(c.r2, c.mono, c.range, entropy), FitError(vals), FlatError(vals), Larger(r, f), r + f,
              c.range, entropy)
  {
    var c, r, f := Scored(k, vals), |Rises(vals)|, |Falls(vals)|;
    ScoreCuts(vals, c.r2);
    MonoCut(vals);
    ClassCases(c.r2, c.mono, c.range, entropy, FitError(vals), FlatError(vals), Larger(r, f), r + f);
  }

  lemma SomeMove(vals: seq<int>)
    requires |Uniques(vals)| > 1
    ensures |Rises(vals)| + |Falls(vals)| > 0
  {
    MoveCounts(vals);
    NonzeroCounts(Steps(vals));
    StepsDecideOrder(vals);
    if |Rises(vals)| + |Falls(vals)| == 0 {
      SeveralMeansNotConstant(vals);
      FlatIsConstant(vals);
      assert false;
    }
  }

  lemma FlatIsConstant(vals: seq<int>)
    requires Rising(vals) && Falling(vals)
    ensures Constant(Reals(vals))
  {
    forall i, j | 0 <= i < |vals| && 0 <= j < |vals| ensures vals[i] == vals[j] {
      assert i <= j ==> vals[i] <= vals[j] && vals[i] >= vals[j];
      assert j <= i ==> vals[j] <= vals[i] && vals[j] >= vals[i];
    }
  }

  lemma NineTenths(x: real, n: nat, m: nat)
    requires n > 0 && IsPart(x, n, m)
    ensures x > 0.9 <==> 10 * m > 9 * n
  {
    ExcessSign(x, n as real, m as real, x - 0.9);
  }

  lemma ExcessSign(x: real, n: real, m: real, e: real)
    requires n > 0.0 && x * n == m && e == x - 0.9
    ensures e > 0.0 <==> 10.0 * m > 9.0 * n
  {
    Regression.Distribute(n, x, -0.9);
    assert e * n == m - 0.9 * n;
    ScaleSign(e, n);
    ZeroTimes(n);
  }

  /** A counter that advances by one fixed non-zero step is always reported, and always as drift. */
  lemma CounterIsDrift(rows: seq<seq<byte>>, cap: nat, k: Key, d: int, entropy: real)
    requires Readable(k) && |Sampled(rows, cap)| >= 3 && d != 0 && Decodes(Sampled(rows, cap), k)
    requires StepsBy(Values(Sampled(rows, cap), k), d)
    ensures var c := Scored(k, Values(Sampled(rows, cap), k));
      c in Scan(Sampled(rows, cap), AllKeys()) && Classify(c.r2, c.mono, c.range, entropy) == Drift
  {
    var vals := Values(Sampled(rows, cap), k);
    assert Steps(vals)[0] == d;
    assert Reals(vals)[0] != Reals(vals)[1];
    SeveralMeansNotConstant(vals);
    PerfectMeansEvenSteps(vals);
    VaryingIsReported(Sampled(rows, cap), k);
  }

  lemma VaryingIsReported(rows: seq<seq<byte>>, k: Key)
    requires Readable(k) && Decodes(rows, k) && |Uniques(Values(rows, k))| > 1
    ensures Scored(k, Values(rows, k)) in Scan(rows, AllKeys())
  {
    KeysUpToListed(|WIDTHS|, k);
    ScanMember(rows, AllKeys(), Scored(k, Values(rows, k)));
  }

  // ---- Signed against unsigned ------------------------------------------------------------

  function Half(k: Key): nat
    requires k.width > 0
  {
    Pow2(8 * k.width - 1)
  }

  lemma SignedReading(row: seq<byte>, k: Key)
    requires k.width > 0 && DecodeField(row, k.(signed := false)).Some?
    ensures DecodeField(row, k.(signed := true)).Some?
    ensures var u, p := DecodeField(row, k.(signed := false)).value, Half(k);
      DecodeField(row, k.(signed := true)).value == if u < p then u else u - 2 * p
  {
    var at := PAYLOAD_START + k.start;
    SignedChunk(row[at..at + k.width], k);
  }

  lemma SignedChunk(chunk: seq<byte>, k: Key)
    requires |chunk| == k.width > 0
    ensures var u, p := FromBytes(chunk, k.bigEndian, false), Half(k);
      FromBytes(chunk, k.bigEndian, true) == if u < p then u else u - 2 * p
  {
    var u := FromBytes(chunk, k.bigEndian, false);
    ChunkMeaning(chunk, Key(k.width, k.start, k.bigEndian, false));
    SignedBelow(u, 8 * k.width);
  }

  lemma SignedBelow(u: nat, width: nat)
    requires width > 0 && u < Pow2(width)
    ensures SignExtend(u, width) == if u < Pow2(width - 1) then u else u - 2 * Pow2(width - 1)
  {
    ModSmall(u, Pow2(width));
  }

  lemma Moved(vals: seq<int>, out: seq<int>, b: int)
    requires |vals| == |out| && forall i :: 0 <= i < |vals| ==> out[i] == vals[i] + b
    ensures LinregR2(Indices(|vals|), Reals(out)) == LinregR2(Indices(|vals|), Reals(vals))
    ensures MonoFraction(out) == MonoFraction(vals)
  {
    forall i | 0 <= i < |vals| ensures Reals(out)[i] == 1.0 * Reals(vals)[i] + b as real {
      assert out[i] as real == vals[i] as real + b as real;
    }
    assert OnLine(Reals(vals), Reals(out), 1.0, b as real);
    R2AffineInvariant(Indices(|vals|), Reals(vals), 1.0, b as real, Reals(out));
    assert forall i :: 0 <= i < |vals| ==> out[i] == 1 * vals[i] + b;
    MonoFractionRescaled(vals, out, 1, b);
  }

  predicate AllBelow(vals: seq<int>, p: int) {
    forall i :: 0 <= i < |vals| ==> vals[i] < p
  }

  predicate NoneBelow(vals: seq<int>, p: int) {
    forall i :: 0 <= i < |vals| ==> vals[i] >= p
  }

  lemma SignedValues(rows: seq<seq<byte>>, k: Key)
    requires k.width > 0 && Decodes(rows, k.(signed := false))
    ensures Decodes(rows, k.(signed := true))
    ensures var u, s, p := Values(rows, k.(signed := false)), Values(rows, k.(signed := true)), Half(k);
      forall i :: 0 <= i < |rows| ==> s[i] == if u[i] < p then u[i] else u[i] - 2 * p
  {
    forall i | 0 <= i < |rows|
      ensures DecodeField(rows[i], k.(signed := true)).Some?
      ensures var u := DecodeField(rows[i], k.(signed := false)).value;
        DecodeField(rows[i], k.(signed := true)).value == if u < Half(k) then u else u - 2 * Half(k)
    {
      SignedReading(rows[i], k);
    }
  }

  lemma CommonShift(u: seq<int>, s: seq<int>, p: int) returns (b: int)
    requires |u| == |s| && (AllBelow(u, p) || NoneBelow(u, p))
    requires forall i :: 0 <= i < |u| ==> s[i] == if u[i] < p then u[i] else u[i] - 2 * p
    ensures forall i :: 0 <= i < |u| ==> s[i] == u[i] + b
  {
    b := if AllBelow(u, p) then 0 else -2 * p;
  }

  /** When no sample crosses the sign boundary, both sign readings score alike. */
  lemma SignIrrelevant(rows: seq<seq<byte>>, k: Key)
    requires k.width > 0 && Decodes(rows, k.(signed := false))
    requires var u := Values(rows, k.(signed := false)); AllBelow(u, Half(k)) || NoneBelow(u, Half(k))
    ensures Decodes(rows, k.(signed := true))
    ensures var u, s := Values(rows, k.(signed := false)), Values(rows, k.(signed := true));
      && LinregR2(Indices(|s|), Reals(s)) == LinregR2(Indices(|u|), Reals(u))
      && MonoFraction(s) == MonoFraction(u)
  {
    SignedValues(rows, k);
    var u, s := Values(rows, k.(signed := false)), Values(rows, k.(signed := true));
    var b := CommonShift(u, s, Half(k));
    Moved(u, s, b);
  }
}
