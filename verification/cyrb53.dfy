/** cyrb53 (logger.js): a 53-bit string hash built from two 32-bit
    multiply-xor accumulators, over the UTF-16 code units of a string. */
module Cyrb53Hash {

  // ----- UTF-16 code units (String.prototype.charCodeAt) -----

  /** A UTF-16 code unit, the value charCodeAt returns. */
  type CodeUnit = x: int | 0 <= x < 0x1_0000

  /** The UTF-16 encoding of one character: one code unit in the basic plane,
      a surrogate pair above it. */
  function CharUnits(c: char): (u: seq<CodeUnit>)
    ensures 1 <= |u| <= 2
    ensures c as int < 0x1_0000 <==> |u| == 1
    ensures |u| == 1 ==> u[0] == c as int
    ensures |u| == 2 ==>
      0xD800 <= u[0] <= 0xDBFF && 0xDC00 <= u[1] <= 0xDFFF
      && 0x1_0000 + (u[0] as int - 0xD800) * 0x400 + (u[1] as int - 0xDC00) == c as int
  {
    var v := c as int;
    if v < 0x1_0000 then [v]
    else
      var w := v - 0x1_0000;
      [0xD800 + w / 0x400, 0xDC00 + w % 0x400]
  }

  /** The code units of a string, as `length` and `charCodeAt` see them. */
  function Utf16(s: string): (u: seq<CodeUnit>)
    ensures |u| >= |s|
  {
    if s == [] then [] else Utf16(s[..|s| - 1]) + CharUnits(s[|s| - 1])
  }

  /** The code units of a concatenation are those of its parts, in order. */
  lemma {:induction false} Utf16Append(a: string, b: string)
    ensures Utf16(a + b) == Utf16(a) + Utf16(b)
    decreases |b|
  {
    if b == [] {
      assert a + b == a;
    } else {
      var b' := b[..|b| - 1];
      assert (a + b)[..|a + b| - 1] == a + b';
      assert (a + b)[|a + b| - 1] == b[|b| - 1];
      Utf16Append(a, b');
    }
  }

  /** The code units of one character are its encoding. */
  lemma Utf16One(c: char)
    ensures Utf16([c]) == CharUnits(c)
  {
    assert [c][..0] == [];
  }

  /** Text in the basic plane has one code unit per character, equal to the
      character's value, so `str.length` is the number of characters. */
  lemma {:induction false} Utf16Basic(s: string)
    requires forall i :: 0 <= i < |s| ==> s[i] as int < 0x1_0000
    ensures |Utf16(s)| == |s| && forall i :: 0 <= i < |s| ==> Utf16(s)[i] == s[i] as int
  {
    if s != [] {
      var init := s[..|s| - 1];
      assert forall i :: 0 <= i < |init| ==> init[i] == s[i];
      Utf16Basic(init);
      assert Utf16(s) == Utf16(init) + [s[|s| - 1] as int];
    }
  }

  // ----- cyrb53 -----

  /** The two 32-bit accumulators; `*` on bv32 is Math.imul, `>>` is `>>>`. */
  datatype State = State(h1: bv32, h2: bv32)

  /** The accumulators before the first code unit: the seed mixed into two
      fixed constants. */
  function Init(seed: bv32): (st: State)
    ensures st.h1 ^ st.h2 == 0xdeadbeef ^ 0x41c6ce57
    ensures st.h1 ^ seed == 0xdeadbeef && st.h2 ^ seed == 0x41c6ce57
  {
    State(0xdeadbeef ^ seed, 0x41c6ce57 ^ seed)
  }

  /** One code unit folded into h1 (`h1 ^ ch` reads ch as a 32-bit integer). */
  function MixH1(h1: bv32, ch: CodeUnit): bv32
  {
    (h1 ^ ch as bv32) * 2654435761
  }

  /** One code unit folded into h2. */
  function MixH2(h2: bv32, ch: CodeUnit): bv32
  {
    (h2 ^ ch as bv32) * 1597334677
  }

  /** One code unit folded into both accumulators. */
  function Mix(st: State, ch: CodeUnit): State
  {
    State(MixH1(st.h1, ch), MixH2(st.h2, ch))
  }

  /** The loop of cyrb53: the code units folded one at a time, in order. */
  function Absorb(st: State, units: seq<CodeUnit>): State
  {
    if units == [] then st else Mix(Absorb(st, units[..|units| - 1]), units[|units| - 1])
  }

  /** Folding a concatenation folds the first part, then the second. */
  lemma {:induction false} AbsorbAppend(st: State, a: seq<CodeUnit>, b: seq<CodeUnit>)
    ensures Absorb(st, a + b) == Absorb(Absorb(st, a), b)
    decreases |b|
  {
    if b == [] {
      assert a + b == a;
    } else {
      var b' := b[..|b| - 1];
      assert (a + b)[..|a + b| - 1] == a + b';
      assert (a + b)[|a + b| - 1] == b[|b| - 1];
      AbsorbAppend(st, a, b');
    }
  }

  /** Each code unit is folded exactly once: one more unit is one more Mix. */
  lemma AbsorbOneMore(st: State, units: seq<CodeUnit>, ch: CodeUnit)
    ensures Absorb(st, units + [ch]) == Mix(Absorb(st, units), ch)
  {
    assert (units + [ch])[..|units|] == units;
  }

  /** The avalanche step: `imul(a ^ a >>> 16, 2246822507) ^ imul(b ^ b >>> 13, 3266489909)`. */
  function Avalanche(a: bv32, b: bv32): bv32
  {
    ((a ^ (a >> 16)) * 2246822507) ^ ((b ^ (b >> 13)) * 3266489909)
  }

  /** The final mixing: h1 from both accumulators, then h2 from the old h2
      and the NEW h1. */
  function Finish(st: State): (r: State)
    ensures r.h1 == Avalanche(st.h1, st.h2) && r.h2 == Avalanche(st.h2, r.h1)
  {
    var h1 := Avalanche(st.h1, st.h2);
    State(h1, Avalanche(st.h2, h1))
  }

  /** `4294967296 * (2097151 & h2) + (h1 >>> 0)`: a 53-bit integer, the sum
      the source writes, exact in a double and in 64 bits alike. */
  function Combine(h1: bv32, h2: bv32): (r: bv64)
    ensures r < 0x20_0000_0000_0000
    ensures r == 0x1_0000_0000 * (h2 as bv64 & 0x1F_FFFF) + h1 as bv64
  {
    // the product by 2^32 is the shift by 32, and the two summands share no bit
    ((h2 as bv64 & 0x1F_FFFF) << 32) | h1 as bv64
  }

  /** The low 32 bits of the result are h1 and the bits above them the low 21
      bits of h2. */
  lemma CombineParts(h1: bv32, h2: bv32)
    ensures var r := Combine(h1, h2);
      r == (r >> 32) * 0x1_0000_0000 + h1 as bv64 && r >> 32 == h2 as bv64 & 0x1F_FFFF
  {
  }

  /** cyrb53(str, seed) over the code units of str. */
  function Hash(units: seq<CodeUnit>, seed: bv32): bv64
  {
    var st := Finish(Absorb(Init(seed), units));
    Combine(st.h1, st.h2)
  }

  /** cyrb53 as the source computes it: a loop over the code units. */
  method Cyrb53(units: seq<CodeUnit>, seed: bv32) returns (r: bv64)
    ensures r == Hash(units, seed)
  {
    var h1: bv32 := 0xdeadbeef ^ seed;
    var h2: bv32 := 0x41c6ce57 ^ seed;
    var i := 0;
    while i < |units|
      invariant 0 <= i <= |units|
      invariant State(h1, h2) == Absorb(Init(seed), units[..i])
    {
      var ch := units[i];
      assert units[..i + 1][..i] == units[..i];
      h1 := MixH1(h1, ch);
      h2 := MixH2(h2, ch);
      i := i + 1;
    }
    assert units[..i] == units;
    h1 := Avalanche(h1, h2);
    h2 := Avalanche(h2, h1);
    r := Combine(h1, h2);
  }

  /** The hash of the empty string depends on the seed alone; unseeded it is
      3338908027751811. */
  lemma EmptyHash(seed: bv32)
    ensures Hash([], seed) == Combine(Finish(Init(seed)).h1, Finish(Init(seed)).h2)
    ensures Hash([], 0) == 3338908027751811
  {
  }

  /** The hash of "a" (one code unit, 0x61), unseeded. */
  lemma HashOfA()
    ensures Hash(Utf16("a"), 0) == 7929297801672961
  {
    assert Utf16("a") == [0x61] by {
      assert "a"[..0] == "";
    }
    assert Absorb(Init(0), [0x61]) == Mix(Init(0), 0x61) by {
      assert [0x61 as CodeUnit][..0] == [];
    }
  }
}
