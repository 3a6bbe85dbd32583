/**
  One sample of IMA ADPCM, coded and decoded, and sequences of samples
  (wolfbench/Benchmarks/adpcm/adpcm.c; section 4.5.1 of RFC 3551).
*/
module AdpcmModel {
  const INDEX_TABLE: seq<int> := [-1, -1, -1, -1, 2, 4, 6, 8, -1, -1, -1, -1, 2, 4, 6, 8]

  /** stepsizeTable, in rows of ten. */
  const STEPSIZE_TABLE: seq<seq<nat>> := [
    [7, 8, 9, 10, 11, 12, 13, 14, 16, 17],
    [19, 21, 23, 25, 28, 31, 34, 37, 41, 45],
    [50, 55, 60, 66, 73, 80, 88, 97, 107, 118],
    [130, 143, 157, 173, 190, 209, 230, 253, 279, 307],
    [337, 371, 408, 449, 494, 544, 598, 658, 724, 796],
    [876, 963, 1060, 1166, 1282, 1411, 1552, 1707, 1878, 2066],
    [2272, 2499, 2749, 3024, 3327, 3660, 4026, 4428, 4871, 5358],
    [5894, 6484, 7132, 7845, 8630, 9493, 10442, 11487, 12635, 13899],
    [15289, 16818, 18500, 20350, 22385, 24623, 27086, 29794, 32767]
  ]

  /** struct adpcm_state. */
  datatype State = State(valprev: int, index: int)

  predicate Valid(st: State) {
    -32768 <= st.valprev <= 32767 && 0 <= st.index <= 88
  }

  function StepOf(index: int): nat
    requires 0 <= index <= 88
  {
    STEPSIZE_TABLE[index / 10][index % 10]
  }

  function Clamp(v: int, lo: int, hi: int): int {
    if v > hi then hi else if v < lo then lo else v
  }

  function NextIndex(index: int, delta: nat): (i: int)
    requires delta < 16
    ensures 0 <= i <= 88
  {
    Clamp(index + INDEX_TABLE[delta], 0, 88)
  }

  // ---------------------------------------------------------------- one sample

  /** The decoder's change of the predictor for a magnitude of three bits. */
  function Change(delta: nat, step: int): int
    requires delta < 8
  {
    step / 8
    + (if delta / 4 % 2 == 1 then step else 0)
    + (if delta / 2 % 2 == 1 then step / 2 else 0)
    + (if delta % 2 == 1 then step / 4 else 0)
  }

  /** One turn of the decoder's loop: the sample put out is the new predictor. */
  function Decode(st: State, code: nat): (r: State)
    requires code < 16 && 0 <= st.index <= 88
    ensures Valid(r)
  {
    var vpdiff := Change(code % 8, StepOf(st.index));
    State(Clamp(if code >= 8 then st.valprev - vpdiff else st.valprev + vpdiff, -32768, 32767), NextIndex(st.index, code))
  }

  /** Step 2 of the coder: three comparisons yield the magnitude and the change it stands for. */
  function Quantise(diff: int, step: int): (r: (nat, int))
    ensures r.0 < 8
  {
    var d2 := if diff >= step then diff - step else diff;
    var d1 := if d2 >= step / 2 then d2 - step / 2 else d2;
    ((if diff >= step then 4 else 0) + (if d2 >= step / 2 then 2 else 0) + (if d1 >= step / 4 then 1 else 0),
     step / 8 + (if diff >= step then step else 0) + (if d2 >= step / 2 then step / 2 else 0) + (if d1 >= step / 4 then step / 4 else 0))
  }

  /** One turn of the coder's loop: the code put out and the new state. */
  function Code(st: State, val: int): (r: (nat, State))
    requires 0 <= st.index <= 88
    ensures r.0 < 16 && Valid(r.1)
  {
    var diff := val - st.valprev;
    var sign := if diff < 0 then 8 else 0;
    var q := Quantise(if diff < 0 then -diff else diff, StepOf(st.index));
    var valpred := Clamp(if sign != 0 then st.valprev - q.1 else st.valprev + q.1, -32768, 32767);
    (q.0 + sign, State(valpred, NextIndex(st.index, q.0 + sign)))
  }

  /** The decoder's change for the code is the one the coder made. */
  lemma QuantiseChange(diff: int, step: int)
    ensures Change(Quantise(diff, step).0, step) == Quantise(diff, step).1
  {
  }

  /** Decoding the code of a sample brings the decoder to the coder's state. */
  lemma LockStep(st: State, val: int)
    requires 0 <= st.index <= 88
    ensures Decode(st, Code(st, val).0) == Code(st, val).1
  {
    hide StepOf, Quantise, Change, NextIndex, Clamp;
    var diff, step := val - st.valprev, StepOf(st.index);
    var q, code := Quantise(if diff < 0 then -diff else diff, step), Code(st, val).0;
    assert code == q.0 + if diff < 0 then 8 else 0;
    assert code % 8 == q.0 && (code >= 8 <==> diff < 0);
    QuantiseChange(if diff < 0 then -diff else diff, step);
  }

  function Abs(x: int): int {
    if x < 0 then -x else x
  }

  /** The change misses the difference by at most an eighth of a step and rounding. */
  lemma QuantiseError(diff: int, step: int)
    requires 0 <= diff < 2 * step
    ensures Abs(diff - Quantise(diff, step).1) <= step / 8 + 2
  {
  }

  /** As long as the difference is below two steps the predictor follows the sample closely. */
  lemma CodeError(st: State, val: int)
    requires Valid(st) && -32768 <= val <= 32767 && Abs(val - st.valprev) < 2 * StepOf(st.index)
    ensures Abs(val - Code(st, val).1.valprev) <= StepOf(st.index) / 8 + 2
  {
    hide Quantise, StepOf, NextIndex;
    QuantiseError(Abs(val - st.valprev), StepOf(st.index));
  }

  /** The difference from which on a magnitude is put out, in whole, half and quarter steps. */
  function Threshold(m: nat, step: int): int
    requires m < 8
  {
    (if m >= 4 then step else 0) + (if m / 2 % 2 == 1 then step / 2 else 0) + if m % 2 == 1 then step / 4 else 0
  }

  /** The magnitude put out is the greatest whose threshold the difference reaches. */
  lemma QuantiseExact(diff: int, step: int)
    requires 0 <= diff && 0 <= step
    ensures var m := Quantise(diff, step).0;
      Threshold(m, step) <= diff && (m < 7 ==> diff < Threshold(m + 1, step)) && Quantise(diff, step).1 == Threshold(m, step) + step / 8
  {
  }

  /**
    What the coder puts out for every sample: the sign, and the greatest magnitude whose threshold the difference reaches.
    The predictor moves by that threshold and an eighth of a step.
  */
  lemma CodeExact(st: State, val: int)
    requires Valid(st)
    ensures var c, step, diff := Code(st, val), StepOf(st.index), Abs(val - st.valprev);
      var m, move := c.0 % 8, Threshold(c.0 % 8, StepOf(st.index)) + StepOf(st.index) / 8;
      && (c.0 >= 8 <==> val < st.valprev)
      && Threshold(m, step) <= diff && (m < 7 ==> diff < Threshold(m + 1, step))
      && c.1.valprev == Clamp(if val < st.valprev then st.valprev - move else st.valprev + move, -32768, 32767)
      && c.1.index == Clamp(st.index + (if m < 4 then -1 else 2 * (m - 3)), 0, 88)
  {
    hide Quantise, StepOf, Threshold, Clamp;
    IndexTable(Code(st, val).0);
    var diff, step := Abs(val - st.valprev), StepOf(st.index);
    QuantiseExact(diff, step);
    var q := Quantise(diff, step);
    assert Code(st, val).0 == q.0 + if val < st.valprev then 8 else 0;
    assert Code(st, val).0 % 8 == q.0;
  }

  /** What the decoder makes of every code. */
  lemma DecodeExact(st: State, code: nat)
    requires Valid(st) && code < 16
    ensures var r, m, move := Decode(st, code), code % 8, Threshold(code % 8, StepOf(st.index)) + StepOf(st.index) / 8;
      && r.valprev == Clamp(if code >= 8 then st.valprev - move else st.valprev + move, -32768, 32767)
      && r.index == Clamp(st.index + (if m < 4 then -1 else 2 * (m - 3)), 0, 88)
  {
    hide StepOf, Clamp;
    IndexTable(code);
    var m, step := code % 8, StepOf(st.index);
    assert m / 4 % 2 == 1 <==> m >= 4;
  }

  /** From two steps on the coder goes all the way: code 7, nearly two steps towards the sample, never past it, and eight indices up. */
  lemma CodeSaturates(st: State, val: int)
    requires Valid(st) && -32768 <= val <= 32767 && Abs(val - st.valprev) >= 2 * StepOf(st.index)
    ensures var c, step := Code(st, val), StepOf(st.index);
      var move := step + step / 2 + step / 4 + step / 8;
      && c.0 % 8 == 7 && c.1.index == (if st.index <= 80 then st.index + 8 else 88)
      && c.1.valprev == (if val < st.valprev then st.valprev - move else st.valprev + move)
      && Abs(val - c.1.valprev) == Abs(val - st.valprev) - move
  {
    hide StepOf, INDEX_TABLE, STEPSIZE_TABLE;
    StepTable(st.index);
    IndexTable(Code(st, val).0);
    CodeExact(st, val);
  }

  /** The step sizes rise from 7 to 32767 by a tenth each, up to rounding; the last one is the greatest 16-bit number. */
  lemma {:induction false} StepTable(i: nat)
    requires i <= 88
    ensures 7 == StepOf(0) <= StepOf(i) <= StepOf(88) == 32767
    ensures i < 88 ==> StepOf(i) < StepOf(i + 1) && (i < 87 ==> Abs(10 * StepOf(i + 1) - 11 * StepOf(i)) <= 8)
  {
    hide StepOf, Rises;
    TableEnds();
    Ordered(0, i);
    Ordered(i, 88);
    if i < 88 {
      RisesAt(i);
    }
  }

  lemma TableEnds()
    ensures StepOf(0) == 7 && StepOf(88) == 32767
  {
  }

  lemma {:induction false} Ordered(i: nat, j: nat)
    requires i <= j <= 88
    ensures StepOf(i) <= StepOf(j)
  {
    hide StepOf, Rises;
    if i < j {
      RisesAt(j - 1);
      Ordered(i, j - 1);
    }
  }

  /** From position k of the table to position end. */
  predicate Rises(k: nat, end: nat)
    requires end <= 88
    decreases end - k
  {
    k >= end ||
    (StepOf(k) < StepOf(k + 1) && (k < 87 ==> Abs(10 * StepOf(k + 1) - 11 * StepOf(k)) <= 8) && Rises(k + 1, end))
  }

  lemma {:induction false} RisesIn(k: nat, end: nat, i: nat)
    requires k <= i < end <= 88 && Rises(k, end)
    ensures StepOf(i) < StepOf(i + 1) && (i < 87 ==> Abs(10 * StepOf(i + 1) - 11 * StepOf(i)) <= 8)
    decreases i - k
  {
    hide StepOf;
    if k < i {
      RisesIn(k + 1, end, i);
    }
  }

  lemma RisesAt(i: nat)
    requires i < 88
    ensures StepOf(i) < StepOf(i + 1) && (i < 87 ==> Abs(10 * StepOf(i + 1) - 11 * StepOf(i)) <= 8)
  {
    hide StepOf, Rises;
    RisesFrom0();
    RisesFrom10();
    RisesFrom20();
    RisesFrom30();
    RisesFrom40();
    RisesFrom50();
    RisesFrom60();
    RisesFrom70();
    RisesFrom80();
    var k := i / 10 * 10;
    assert k == 0 || k == 10 || k == 20 || k == 30 || k == 40 || k == 50 || k == 60 || k == 70 || k == 80;
    RisesIn(k, if k == 80 then 88 else k + 10, i);
  }

  lemma RisesFrom0()
    ensures Rises(0, 10)
  {
  }

  lemma RisesFrom10()
    ensures Rises(10, 20)
  {
  }

  lemma RisesFrom20()
    ensures Rises(20, 30)
  {
  }

  lemma RisesFrom30()
    ensures Rises(30, 40)
  {
  }

  lemma RisesFrom40()
    ensures Rises(40, 50)
  {
  }

  lemma RisesFrom50()
    ensures Rises(50, 60)
  {
  }

  lemma RisesFrom60()
    ensures Rises(60, 70)
  {
  }

  lemma RisesFrom70()
    ensures Rises(70, 80)
  {
  }

  lemma RisesFrom80()
    ensures Rises(80, 88)
  {
  }

  /** Small magnitudes lower the index by one, the others raise it by two, four, six or eight. */
  lemma IndexTable(code: nat)
    requires code < 16
    ensures INDEX_TABLE[code] == if code % 8 < 4 then -1 else 2 * (code % 8 - 3)
  {
  }

  // ----------------------------------------------------------------- sequences

  function CodeAll(st: State, vals: seq<int>): (r: (seq<nat>, State))
    requires Valid(st)
    ensures |r.0| == |vals| && Valid(r.1) && forall k :: 0 <= k < |r.0| ==> r.0[k] < 16
    decreases |vals|
  {
    if vals == [] then ([], st) else
    var c := Code(st, vals[0]);
    var rest := CodeAll(c.1, vals[1..]);
    ([c.0] + rest.0, rest.1)
  }

  /** The predictors after each sample, and the final state. */
  function Predictors(st: State, vals: seq<int>): (r: seq<int>)
    requires Valid(st)
    ensures |r| == |vals|
    decreases |vals|
  {
    if vals == [] then [] else
    var c := Code(st, vals[0]);
    [c.1.valprev] + Predictors(c.1, vals[1..])
  }

  function DecodeAll(st: State, codes: seq<nat>): (r: (seq<int>, State))
    requires Valid(st) && forall k :: 0 <= k < |codes| ==> codes[k] < 16
    ensures |r.0| == |codes| && Valid(r.1)
    decreases |codes|
  {
    if codes == [] then ([], st) else
    var d := Decode(st, codes[0]);
    var rest := DecodeAll(d, codes[1..]);
    ([d.valprev] + rest.0, rest.1)
  }

  /** Decoding what was coded reproduces every predictor of the coder and its final state. */
  lemma {:induction false} LockStepAll(st: State, vals: seq<int>)
    requires Valid(st)
    ensures DecodeAll(st, CodeAll(st, vals).0) == (Predictors(st, vals), CodeAll(st, vals).1)
    decreases |vals|
  {
    if vals != [] {
      var c := Code(st, vals[0]);
      LockStep(st, vals[0]);
      LockStepAll(c.1, vals[1..]);
      assert CodeAll(st, vals).0[1..] == CodeAll(c.1, vals[1..]).0;
    }
  }

  lemma Joined(x: nat, a: seq<nat>, b: seq<nat>)
    ensures [x] + (a + b) == ([x] + a) + b
  {
  }

  /** Coding a sequence in two parts, the second from the state the first left, codes the whole. */
  lemma {:induction false} CodeConcat(st: State, a: seq<int>, b: seq<int>)
    requires Valid(st)
    ensures CodeAll(st, a + b) == (CodeAll(st, a).0 + CodeAll(CodeAll(st, a).1, b).0, CodeAll(CodeAll(st, a).1, b).1)
    decreases |a|
  {
    hide Code;
    if a == [] {
      assert a + b == b && CodeAll(st, a) == ([], st);
      assert [] + CodeAll(st, b).0 == CodeAll(st, b).0;
    } else {
      var c := Code(st, a[0]);
      assert (a + b)[1..] == a[1..] + b;
      CodeConcat(c.1, a[1..], b);
      Joined(c.0, CodeAll(c.1, a[1..]).0, CodeAll(CodeAll(c.1, a[1..]).1, b).0);
    }
  }

  // --------------------------------------------------------------------- bytes

  /** Two codes to a byte, the first in the upper half; an odd last one leaves the lower half zero. */
  function Pack(codes: seq<nat>): (r: seq<nat>)
    ensures |r| == (|codes| + 1) / 2
  {
    if codes == [] then []
    else if |codes| == 1 then [codes[0] * 16]
    else [codes[0] * 16 + codes[1]] + Pack(codes[2..])
  }

  /** The first n codes in the bytes. */
  function Unpack(bytes: seq<nat>, n: nat): (r: seq<nat>)
    requires n <= 2 * |bytes|
    ensures |r| == n && forall k :: 0 <= k < n ==> r[k] < 16
  {
    if n == 0 then []
    else if n == 1 then [bytes[0] / 16 % 16]
    else [bytes[0] / 16 % 16, bytes[0] % 16] + Unpack(bytes[1..], n - 2)
  }

  lemma {:induction false} UnpackPack(codes: seq<nat>)
    requires forall k :: 0 <= k < |codes| ==> codes[k] < 16
    ensures Unpack(Pack(codes), |codes|) == codes
  {
    if |codes| > 1 {
      UnpackPack(codes[2..]);
      assert codes == [codes[0], codes[1]] + codes[2..];
      assert Pack(codes)[1..] == Pack(codes[2..]);
    }
  }

  /** Chunks of even length pack without a seam. */
  lemma {:induction false} PackConcat(a: seq<nat>, b: seq<nat>)
    requires |a| % 2 == 0
    ensures Pack(a + b) == Pack(a) + Pack(b)
  {
    if a == [] {
      assert a + b == b;
    } else {
      assert (a + b)[2..] == a[2..] + b;
      PackConcat(a[2..], b);
    }
  }

  /** What the coder writes and the state it leaves; what the decoder reads from it. */
  function Encoded(st: State, vals: seq<int>): seq<nat>
    requires Valid(st)
  {
    Pack(CodeAll(st, vals).0)
  }

  /** The decoder, started in the coder's state on the bytes the coder wrote, follows it exactly. */
  lemma RoundTrip(st: State, vals: seq<int>)
    requires Valid(st)
    ensures |vals| <= 2 * |Encoded(st, vals)|
    ensures DecodeAll(st, Unpack(Encoded(st, vals), |vals|)) == (Predictors(st, vals), CodeAll(st, vals).1)
  {
    UnpackPack(CodeAll(st, vals).0);
    LockStepAll(st, vals);
  }

  /** Coding in chunks, all but the last of even length, writes the same bytes as coding in one call. */
  lemma Chunks(st: State, a: seq<int>, b: seq<int>)
    requires Valid(st) && |a| % 2 == 0
    ensures Encoded(st, a + b) == Encoded(st, a) + Encoded(CodeAll(st, a).1, b)
    ensures CodeAll(st, a + b).1 == CodeAll(CodeAll(st, a).1, b).1
  {
    CodeConcat(st, a, b);
    PackConcat(CodeAll(st, a).0, CodeAll(CodeAll(st, a).1, b).0);
  }
}
