/** State identity: `mp::fixed_string`, a state name together with the
    32-bit hash that the machine uses as the state's identifier. */
module Mp {

  /** The `'*'` character that marks a source as the initial state of a region. */
  const Marker: bv8 := 0x2A

  /** The value a `char` contributes to `unsigned ^= char`: the char is
      promoted to `int` (sign-extending a signed char) and then converted
      to `unsigned`, i.e. taken modulo 2^32. */
  function Widen(c: bv8): bv32 {
    if c < 0x80 then c as bv32 else c as bv32 | 0xFFFF_FF00
  }

  /** One step of the hash: `(hash ^= c) <<= 1`, wrapping at 32 bits. */
  function Step(h: bv32, c: bv8): bv32 {
    (h ^ Widen(c)) << 1
  }

  /** Left fold of Step over `s`, starting from `h`. */
  function Fold(h: bv32, s: seq<bv8>): bv32
    decreases |s|
  {
    if s == [] then h else Fold(Step(h, s[0]), s[1..])
  }

  /** The identifier of a state name: the fold from 0 over its characters. */
  function Hash(s: seq<bv8>): bv32 {
    Fold(0, s)
  }

  /** A `fixed_string<N>`: its N characters (without the terminating NUL)
      and the hash accumulated by whichever constructor built it. */
  datatype FixedString = FixedString(data: seq<bv8>, hash: bv32) {
    /** `size`, the template argument N. */
    function Size(): nat { |data| }

    /** `data[0] == '*'`; for N == 0, `data[0]` is the NUL terminator. */
    predicate Marked() { |data| > 0 && data[0] == Marker }
  }

  /** The value the converting constructor builds from a literal. */
  function Literal(s: seq<bv8>): FixedString {
    FixedString(s, Hash(s))
  }

  /** The value `operator*` builds: `'*'` in front, hash of the old characters. */
  function Starred(fs: FixedString): FixedString {
    FixedString([Marker] + fs.data, Hash(fs.data))
  }

  /** The converting constructor `fixed_string(const char (&)[N + 1])`. */
  method MakeFixedString(str: seq<bv8>) returns (fs: FixedString)
    ensures fs == Literal(str)
  {
    var hash: bv32 := 0;
    var i := 0;
    while i < |str|
      invariant 0 <= i <= |str|
      invariant hash == Hash(str[..i])
    {
      FoldSnoc(0, str[..i], str[i]);
      assert str[..i + 1] == str[..i] + [str[i]];
      hash := (hash ^ Widen(str[i])) << 1;
      i := i + 1;
    }
    assert str[..i] == str;
    fs := FixedString(str, hash);
  }

  /** `operator*`: a fresh string of size N + 1 whose first character is
      `'*'`, whose hash is recomputed from 0 over the copied characters. */
  method Star(fs: FixedString) returns (r: FixedString)
    ensures r == Starred(fs)
    ensures r.Marked() && r.Size() == fs.Size() + 1 && r.data[1..] == fs.data
    ensures fs == Literal(fs.data) ==> r.hash == fs.hash
  {
    var data := [Marker];
    var hash: bv32 := 0;
    var i := 0;
    while i < |fs.data|
      invariant 0 <= i <= |fs.data|
      invariant data == [Marker] + fs.data[..i]
      invariant hash == Hash(fs.data[..i])
    {
      FoldSnoc(0, fs.data[..i], fs.data[i]);
      assert fs.data[..i + 1] == fs.data[..i] + [fs.data[i]];
      data := data + [fs.data[i]];
      hash := (hash ^ Widen(data[i + 1])) << 1;
      i := i + 1;
    }
    assert fs.data[..i] == fs.data;
    r := FixedString(data, hash);
  }

  /** Folding over a concatenation is folding over each part in turn. */
  lemma {:induction false} FoldConcat(h: bv32, p: seq<bv8>, s: seq<bv8>)
    ensures Fold(h, p + s) == Fold(Fold(h, p), s)
    decreases |p|
  {
    if p != [] {
      assert (p + s)[1..] == p[1..] + s;
      FoldConcat(Step(h, p[0]), p[1..], s);
    } else {
      assert p + s == s;
    }
  }

  /** The hash of `s + [c]` is one more Step from the hash of `s`. */
  lemma FoldSnoc(h: bv32, s: seq<bv8>, c: bv8)
    ensures Fold(h, s + [c]) == Step(Fold(h, s), c)
  {
    FoldConcat(h, s, [c]);
  }

  /** Every identifier is even: each step ends in a left shift. */
  lemma HashIsEven(s: seq<bv8>)
    ensures Hash(s) & 1 == 0
  {
    if s != [] {
      FoldSnoc(0, s[..|s| - 1], s[|s| - 1]);
      assert s[..|s| - 1] + [s[|s| - 1]] == s;
    }
  }

  /** Marking a literal as initial keeps its identifier: `*"x"` and `"x"`
      denote the same state, and only the size grows by one. */
  lemma StarredKeepsIdentity(s: seq<bv8>)
    ensures Starred(Literal(s)).hash == Literal(s).hash
    ensures Starred(Literal(s)).Size() == Literal(s).Size() + 1
    ensures Starred(Literal(s)).Marked() && !Literal([]).Marked()
  {
  }

  /** The name "!B" hashes to 0, the same identifier as the empty name:
      (0 ^ 33) << 1 == 66, (66 ^ 66) << 1 == 0. */
  lemma ZeroHashName()
    ensures Hash([0x21, 0x42]) == 0 == Hash([])
  {
    assert Fold(0, [0x21, 0x42]) == Fold(0x42, [0x42]);
  }
}
