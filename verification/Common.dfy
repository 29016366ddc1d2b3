/** Types shared by the models. */
module Common {

  datatype Option<+T> = None | Some(value: T)

  type byte = b: nat | b < 256 witness 0

  const U16 := 0x1_0000
  const U32 := 0x1_0000_0000
  const U64 := 0x1_0000_0000_0000_0000

  function Min(a: nat, b: nat): nat {
    if a <= b then a else b
  }

  /** 32-bit unsigned addition */
  function Add32(a: nat, b: nat): nat {
    (a + b) % U32
  }

  lemma NoWrap(a: nat, b: nat)
    requires a + b < U32
    ensures Add32(a, b) == a + b
  {
  }

  ghost predicate NoDup(s: seq<nat>) {
    forall i, j :: 0 <= i < j < |s| ==> s[i] != s[j]
  }

  /** Bit i of x. */
  predicate Bit(x: nat, i: nat) {
    if i == 0 then x % 2 == 1 else Bit(x / 2, i - 1)
  }

  // ----------------------------------------------------------------------- multiples

  lemma NextMultiple(i: nat, c: nat)
    ensures i * c + c == (i + 1) * c
  {
  }

  lemma DivMod(a: nat, c: nat)
    requires c > 0
    ensures a == a / c * c + a % c && 0 <= a % c < c && a / c >= 0
  {
  }

  lemma LessMultiple(a: nat, b: nat, c: nat)
    ensures a < b ==> a * c + c <= b * c
  {
    if a < b {
      Distribute(a, b - a - 1, c);
    }
  }

  lemma Distribute(a: nat, d: nat, c: nat)
    ensures (a + 1 + d) * c == a * c + c + d * c && d * c >= 0
  {
  }

  lemma Multiple(q: nat, c: nat)
    requires c > 0
    ensures (q * c) % c == 0
  {
    var d := q * c / c;
    DivMod(q * c, c);
    LessMultiple(d, q, c);
    LessMultiple(q, d, c);
  }

  function Pow2(k: nat): (r: nat)
    ensures r >= 1
  {
    if k == 0 then 1 else 2 * Pow2(k - 1)
  }

  // ------------------------------------------------------------------- sets and sequences

  ghost function Elements<T>(s: seq<T>): set<T> {
    set x | x in s
  }

  lemma {:induction false} DistinctElements(s: seq<nat>)
    requires NoDup(s)
    ensures |Elements(s)| == |s|
  {
    if s != [] {
      DistinctElements(s[1..]);
      assert s[0] !in Elements(s[1..]);
      assert Elements(s) == {s[0]} + Elements(s[1..]);
    }
  }

  lemma {:induction false} AtMostLength<T>(s: seq<T>)
    ensures |Elements(s)| <= |s|
  {
    if s != [] {
      AtMostLength(s[1..]);
      assert Elements(s) == {s[0]} + Elements(s[1..]);
    }
  }

  lemma SliceOfSlice<T>(content: seq<T>, done: nat, data: seq<T>, a: nat, b: nat)
    requires a <= b <= |data| && done + |data| <= |content| && data == content[done..done + |data|]
    ensures data[a..b] == content[done + a..done + b]
  {
    assert forall i :: 0 <= i < |data| ==> data[i] == content[done + i];
  }

  lemma SlicesJoin<T>(s: seq<T>, a: nat, b: nat, c: nat)
    requires a <= b <= c <= |s|
    ensures s[a..b] + s[b..c] == s[a..c]
  {
  }

  /** memcpy */
  method Copy(buffer: array<byte>, at: nat, data: seq<byte>)
    requires at + |data| <= buffer.Length
    modifies buffer
    ensures buffer[..] == old(buffer[..at]) + data + old(buffer[at + |data|..])
  {
    forall i | 0 <= i < |data| {
      buffer[at + i] := data[i];
    }
  }
}
