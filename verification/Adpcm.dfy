/**
  The loops of adpcm_coder and adpcm_decoder over sample and byte buffers
  (wolfbench/Benchmarks/adpcm/adpcm.c). Bytes are their eight bits, 0 to 255.
*/
module Adpcm {
  import opened AdpcmModel

  class AdpcmState {
    var valprev: int
    var index: int

    ghost function Value(): State
      reads this
    {
      State(valprev, index)
    }
  }

  lemma CodeLast(st: State, vals: seq<int>, val: int)
    requires Valid(st)
    ensures CodeAll(st, vals + [val]) == (CodeAll(st, vals).0 + [Code(CodeAll(st, vals).1, val).0], Code(CodeAll(st, vals).1, val).1)
  {
    CodeConcat(st, vals, [val]);
    CodeOne(CodeAll(st, vals).1, val);
  }

  lemma CodeOne(st: State, val: int)
    requires Valid(st)
    ensures CodeAll(st, [val]) == ([Code(st, val).0], Code(st, val).1)
  {
    hide Code;
    var s, c := [val], Code(st, val);
    assert s[0] == val && s[1..] == [];
    assert CodeAll(st, s) == ([c.0] + CodeAll(c.1, s[1..]).0, CodeAll(c.1, s[1..]).1);
    assert [c.0] + [] == [c.0];
  }

  /** An even number of codes fills whole bytes; one more begins a byte. */
  lemma PackBegins(codes: seq<nat>, c: nat)
    requires |codes| % 2 == 0
    ensures Pack(codes + [c]) == Pack(codes) + [c * 16]
  {
    PackConcat(codes, [c]);
  }

  lemma PackTwo(b: nat, c: nat)
    ensures Pack([b, c]) == [b * 16 + c]
  {
    assert [b, c][2..] == [] && [b * 16 + c] + [] == [b * 16 + c];
  }

  /** And the next one completes it. */
  lemma PackCompletes(codes: seq<nat>, b: nat, c: nat)
    requires |codes| % 2 == 0
    ensures Pack(codes + [b] + [c]) == Pack(codes) + [b * 16 + c]
  {
    assert codes + [b] + [c] == codes + [b, c];
    hide Pack;
    PackConcat(codes, [b, c]);
    PackTwo(b, c);
  }

  /** One sample, computed with the program's local variables. */
  method CodeSample(val: int, valpred0: int, index0: int) returns (delta: nat, valpred: int, index: int)
    requires Valid(State(valpred0, index0))
    ensures (delta, State(valpred, index)) == Code(State(valpred0, index0), val)
  {
    var step := StepOf(index0);
    var diff := val - valpred0;
    var sign := if diff < 0 then 8 else 0;
    if sign != 0 {
      diff := -diff;
    }
    delta := 0;
    var vpdiff := step / 8;
    if diff >= step {
      delta := 4;
      diff := diff - step;
      vpdiff := vpdiff + step;
    }
    if diff >= step / 2 {
      delta := delta + 2;
      diff := diff - step / 2;
      vpdiff := vpdiff + step / 2;
    }
    if diff >= step / 4 {
      delta := delta + 1;
      vpdiff := vpdiff + step / 4;
    }
    valpred := if sign != 0 then valpred0 - vpdiff else valpred0 + vpdiff;
    valpred := Clamp(valpred, -32768, 32767);
    delta := delta + sign;
    index := NextIndex(index0, delta);
  }

  /** Where the coder stands after some samples: the bytes written, and the code that waits for its byte. */
  ghost predicate Coding(st: State, vals: seq<int>, now: State, out: seq<nat>, outputbuffer: nat, bufferstep: bool) {
    && Valid(st) && Valid(now) && CodeAll(st, vals).1 == now
    && var codes := CodeAll(st, vals).0;
      if bufferstep then |vals| % 2 == 0 && out == Pack(codes)
      else |vals| % 2 == 1 && out == Pack(codes[..|vals| - 1]) && outputbuffer == codes[|vals| - 1] * 16
  }

  lemma CodingStart(st: State)
    requires Valid(st)
    ensures Coding(st, [], st, [], 0, true)
  {
  }

  lemma Butlast(codes: seq<nat>, c: nat)
    ensures (codes + [c])[..|codes|] == codes && (codes + [c])[|codes|] == c
  {
  }

  /** A code is kept for the next byte. */
  lemma CodingKeep(st: State, vals: seq<int>, now: State, out: seq<nat>, outputbuffer: nat, val: int)
    requires Coding(st, vals, now, out, outputbuffer, true)
    ensures var c := Code(now, val); Coding(st, vals + [val], c.1, out, c.0 * 16, false)
  {
    hide CodeAll, Code, Pack;
    CodeLast(st, vals, val);
    Butlast(CodeAll(st, vals).0, Code(now, val).0);
  }

  lemma LastCode(codes: seq<nat>) returns (init: seq<nat>, b: nat)
    requires codes != []
    ensures codes == init + [b] && init == codes[..|codes| - 1] && b == codes[|codes| - 1]
  {
    init, b := codes[..|codes| - 1], codes[|codes| - 1];
  }

  /** A code completes its byte. */
  lemma CodingWrite(st: State, vals: seq<int>, now: State, out: seq<nat>, outputbuffer: nat, val: int)
    requires Coding(st, vals, now, out, outputbuffer, false)
    ensures var c := Code(now, val); Coding(st, vals + [val], c.1, out + [c.0 + outputbuffer], outputbuffer, true)
  {
    hide CodeAll, Code, Pack;
    CodeLast(st, vals, val);
    var init, b := LastCode(CodeAll(st, vals).0);
    PackCompletes(init, b, Code(now, val).0);
  }

  /** The last code may be alone in its byte. */
  lemma CodingEnd(st: State, vals: seq<int>, now: State, out: seq<nat>, outputbuffer: nat, bufferstep: bool)
    requires Coding(st, vals, now, out, outputbuffer, bufferstep)
    ensures Encoded(st, vals) == if bufferstep then out else out + [outputbuffer]
    ensures CodeAll(st, vals).1 == now
  {
    hide CodeAll, Pack;
    if !bufferstep {
      var init, b := LastCode(CodeAll(st, vals).0);
      PackBegins(init, b);
    }
  }

  /** The body of the coder's loop. */
  method CodeNext(val: int, valpred0: int, index0: int, outdata: array<nat>, outp0: nat, outputbuffer0: nat, bufferstep: bool,
                  ghost st: State, ghost vals: seq<int>)
    returns (valpred: int, index: int, outp: nat, outputbuffer: nat)
    requires outp0 < outdata.Length && Coding(st, vals, State(valpred0, index0), outdata[..outp0], outputbuffer0, bufferstep)
    modifies outdata
    ensures outp == outp0 + if bufferstep then 0 else 1
    ensures Valid(State(valpred, index)) && Coding(st, vals + [val], State(valpred, index), outdata[..outp], outputbuffer, !bufferstep)
    ensures forall k :: outp <= k < outdata.Length ==> outdata[k] == old(outdata[k])
  {
    ghost var now := State(valpred0, index0);
    assert Valid(now);
    hide Coding, Code;
    var delta;
    outp, outputbuffer := outp0, outputbuffer0;
    delta, valpred, index := CodeSample(val, valpred0, index0);
    if bufferstep {
      CodingKeep(st, vals, now, outdata[..outp], outputbuffer, val);
      outputbuffer := delta * 16;
    } else {
      CodingWrite(st, vals, now, outdata[..outp], outputbuffer, val);
      outdata[outp] := delta + outputbuffer;
      assert outdata[..outp + 1] == old(outdata[..outp0]) + [delta + outputbuffer];
      outp := outp + 1;
    }
  }

  /** adpcm_coder: the bytes and the state are those of the model. */
  method AdpcmCoder(indata: array<int>, outdata: array<nat>, len: nat, state: AdpcmState)
    requires len <= indata.Length && (len + 1) / 2 <= outdata.Length && Valid(state.Value())
    requires indata as object != outdata as object
    modifies outdata, state
    ensures outdata[..(len + 1) / 2] == Encoded(old(state.Value()), indata[..len])
    ensures state.Value() == CodeAll(old(state.Value()), indata[..len]).1
    ensures forall k :: (len + 1) / 2 <= k < outdata.Length ==> outdata[k] == old(outdata[k])
  {
    hide Coding, Encoded, Code, CodeAll, Valid, Pack;
    ghost var st := state.Value();
    var valpred, index := state.valprev, state.index;
    var outp, outputbuffer, bufferstep := 0, 0, true;
    var i := 0;
    CodingStart(st);
    assert outdata[..0] == [] && indata[..0] == [];
    while i < len
      invariant 0 <= i <= len && outp == i / 2 && bufferstep == (i % 2 == 0) && Valid(State(valpred, index))
      invariant Coding(st, indata[..i], State(valpred, index), outdata[..outp], outputbuffer, bufferstep)
      invariant forall k :: outp <= k < outdata.Length ==> outdata[k] == old(outdata[k])
    {
      assert indata[..i + 1] == indata[..i] + [indata[i]];
      valpred, index, outp, outputbuffer := CodeNext(indata[i], valpred, index, outdata, outp, outputbuffer, bufferstep, st, indata[..i]);
      bufferstep := !bufferstep;
      i := i + 1;
    }
    CodingEnd(st, indata[..len], State(valpred, index), outdata[..outp], outputbuffer, bufferstep);
    if !bufferstep {
      outdata[outp] := outputbuffer;
      assert outdata[..outp + 1] == outdata[..outp] + [outputbuffer];
      outp := outp + 1;
    }
    state.valprev, state.index := valpred, index;
  }

  // ----------------------------------------------------------------- decoder

  /** The code at position n of the packed bytes. */
  function Nibble(bytes: seq<nat>, n: nat): (c: nat)
    requires n / 2 < |bytes|
    ensures c < 16
  {
    if n % 2 == 0 then bytes[n / 2] / 16 % 16 else bytes[n / 2] % 16
  }

  lemma {:induction false} UnpackLast(bytes: seq<nat>, n: nat)
    requires n / 2 < |bytes|
    ensures Unpack(bytes, n + 1) == Unpack(bytes, n) + [Nibble(bytes, n)]
    decreases n
  {
    if n == 1 {
      assert Unpack(bytes[1..], 0) == [];
    } else if n > 1 {
      UnpackLast(bytes[1..], n - 2);
      assert Nibble(bytes[1..], n - 2) == Nibble(bytes, n);
      assert Unpack(bytes, n + 1) == [bytes[0] / 16 % 16, bytes[0] % 16] + Unpack(bytes[1..], n - 1);
      assert Unpack(bytes, n) == [bytes[0] / 16 % 16, bytes[0] % 16] + Unpack(bytes[1..], n - 2);
    }
  }

  lemma {:induction false} DecodeLast(st: State, codes: seq<nat>, c: nat)
    requires Valid(st) && c < 16 && forall k :: 0 <= k < |codes| ==> codes[k] < 16
    ensures var d := DecodeAll(st, codes); var r := Decode(d.1, c);
      DecodeAll(st, codes + [c]) == (d.0 + [r.valprev], r)
    decreases |codes|
  {
    hide Decode;
    if codes == [] {
      var s := codes + [c];
      assert s[0] == c && s[1..] == [];
      var r := Decode(st, c);
      assert DecodeAll(st, s) == ([r.valprev] + DecodeAll(r, s[1..]).0, DecodeAll(r, s[1..]).1);
      assert [r.valprev] + [] == [] + [r.valprev];
    } else {
      var d := Decode(st, codes[0]);
      assert (codes + [c])[1..] == codes[1..] + [c];
      DecodeLast(d, codes[1..], c);
      var e := DecodeAll(d, codes[1..]);
      assert [d.valprev] + (e.0 + [Decode(e.1, c).valprev]) == ([d.valprev] + e.0) + [Decode(e.1, c).valprev];
    }
  }

  /** One sample, computed with the program's local variables. */
  method DecodeSample(code: nat, valpred0: int, index0: int) returns (valpred: int, index: int)
    requires Valid(State(valpred0, index0)) && code < 16
    ensures State(valpred, index) == Decode(State(valpred0, index0), code)
  {
    var step := StepOf(index0);
    index := NextIndex(index0, code);
    var sign, delta := code / 8, code % 8;
    var vpdiff := step / 8;
    if delta / 4 % 2 == 1 {
      vpdiff := vpdiff + step;
    }
    if delta / 2 % 2 == 1 {
      vpdiff := vpdiff + step / 2;
    }
    if delta % 2 == 1 {
      vpdiff := vpdiff + step / 4;
    }
    valpred := if sign != 0 then valpred0 - vpdiff else valpred0 + vpdiff;
    valpred := Clamp(valpred, -32768, 32767);
  }

  ghost predicate Decoding(st: State, bytes: seq<nat>, n: nat, now: State, out: seq<int>) {
    && Valid(st) && Valid(now) && n <= 2 * |bytes| && |out| == n
    && DecodeAll(st, Unpack(bytes, n)) == (out, now)
  }

  lemma DecodingStep(st: State, bytes: seq<nat>, n: nat, now: State, out: seq<int>)
    requires Decoding(st, bytes, n, now, out) && n / 2 < |bytes|
    ensures var r := Decode(now, Nibble(bytes, n)); Decoding(st, bytes, n + 1, r, out + [r.valprev])
  {
    hide Decode, Nibble, Unpack, DecodeAll;
    UnpackLast(bytes, n);
    DecodeLast(st, Unpack(bytes, n), Nibble(bytes, n));
  }

  lemma DecodingStart(st: State, bytes: seq<nat>)
    requires Valid(st)
    ensures Decoding(st, bytes, 0, st, [])
  {
  }

  /** adpcm_decoder: the samples and the state are those of the model. */
  method AdpcmDecoder(indata: array<nat>, outdata: array<int>, len: nat, state: AdpcmState)
    requires len <= outdata.Length && len <= 2 * indata.Length && Valid(state.Value())
    requires indata as object != outdata as object
    modifies outdata, state
    ensures (outdata[..len], state.Value()) == DecodeAll(old(state.Value()), Unpack(indata[..], len))
  {
    hide Decoding, Decode, Nibble, Valid, Unpack, DecodeAll;
    ghost var st, bytes := state.Value(), indata[..];
    var valpred, index := state.valprev, state.index;
    var inp, inputbuffer, bufferstep := 0, 0, false;
    var i := 0;
    DecodingStart(st, bytes);
    assert outdata[..0] == [];
    while i < len
      invariant 0 <= i <= len && bufferstep == (i % 2 == 1) && inp == (i + 1) / 2
      invariant bufferstep ==> i / 2 < indata.Length && inputbuffer == indata[i / 2]
      invariant indata[..] == bytes && Valid(State(valpred, index)) && Decoding(st, bytes, i, State(valpred, index), outdata[..i])
    {
      var delta;
      if bufferstep {
        delta := inputbuffer % 16;
      } else {
        inputbuffer := indata[inp];
        inp := inp + 1;
        delta := inputbuffer / 16 % 16;
      }
      NibbleIs(bytes, i, delta);
      DecodingStep(st, bytes, i, State(valpred, index), outdata[..i]);
      bufferstep := !bufferstep;
      valpred, index := DecodeSample(delta, valpred, index);
      outdata[i] := valpred;
      assert outdata[..i + 1] == outdata[..i] + [valpred];
      i := i + 1;
    }
    DecodingEnd(st, bytes, len, State(valpred, index), outdata[..len]);
    state.valprev, state.index := valpred, index;
  }

  lemma NibbleIs(bytes: seq<nat>, n: nat, delta: nat)
    requires n / 2 < |bytes| && delta == if n % 2 == 0 then bytes[n / 2] / 16 % 16 else bytes[n / 2] % 16
    ensures delta == Nibble(bytes, n)
  {
  }

  lemma DecodingEnd(st: State, bytes: seq<nat>, n: nat, now: State, out: seq<int>)
    requires Decoding(st, bytes, n, now, out)
    ensures Valid(st) && Valid(now) && n <= 2 * |bytes| && DecodeAll(st, Unpack(bytes, n)) == (out, now)
  {
  }
}
