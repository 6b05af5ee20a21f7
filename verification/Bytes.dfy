/** Bytes, fixed-width integer fields and a few facts about sequences shared by the other modules. */
module Bytes {

  type byte = b: int | 0 <= b < 256
  type bytes = seq<byte>

  datatype Option<+T> = None | Some(value: T)

  function Pow2(n: nat): (p: nat)
    ensures p > 0
  {
    if n == 0 then 1 else 2 * Pow2(n - 1)
  }

  /** encoding/binary's big-endian 16-bit field. */
  function Be16(v: int): bytes
    requires 0 <= v < 0x1_0000
  {
    [v / 256, v % 256]
  }

  /** encoding/binary's big-endian 32-bit field. */
  function Be32(v: int): bytes
    requires 0 <= v < 0x1_0000_0000
  {
    Be16(v / 0x1_0000) + Be16(v % 0x1_0000)
  }

  /** encoding/binary's little-endian 32-bit field. */
  function Le32(v: int): bytes
    requires 0 <= v < 0x1_0000_0000
  {
    [v % 256, v / 256 % 256, v / 0x1_0000 % 256, v / 0x100_0000]
  }

  function Be16Value(s: bytes): int
    requires |s| == 2
  {
    var a: int, b: int := s[0], s[1];
    a * 256 + b
  }

  function Be32Value(s: bytes): int
    requires |s| == 4
  {
    0x1_0000 * Be16Value(s[..2]) + Be16Value(s[2..])
  }

  lemma Be16Injective(s: bytes, v: int)
    requires |s| == 2 && 0 <= v < 0x1_0000
    ensures Be16Value(s) == v <==> s == Be16(v)
  {
    if Be16Value(s) == v {
      assert s == Be16(v);
    }
  }

  lemma Be32Injective(s: bytes, v: int)
    requires |s| == 4 && 0 <= v < 0x1_0000_0000
    ensures Be32Value(s) == v <==> s == Be32(v)
  {
    var high, low := Be16Value(s[..2]), Be16Value(s[2..]);
    assert high == v / 0x1_0000 && low == v % 0x1_0000 <==> Be32Value(s) == v;
    Be16Injective(s[..2], v / 0x1_0000);
    Be16Injective(s[2..], v % 0x1_0000);
    assert s == s[..2] + s[2..];
    if s == Be32(v) {
      assert s[..2] == Be16(v / 0x1_0000) && s[2..] == Be16(v % 0x1_0000);
    }
  }

  lemma ConcatAssociates<T>(a: seq<T>, b: seq<T>, c: seq<T>)
    ensures a + (b + c) == (a + b) + c
  {
  }

  lemma PrefixOfConcat<T>(a: seq<T>, b: seq<T>, n: nat)
    requires n <= |b|
    ensures (a + b)[..|a| + n] == a + b[..n]
  {
  }

  lemma TailOfConcat<T>(a: seq<T>, b: seq<T>)
    requires a != []
    ensures (a + b)[1..] == a[1..] + b && (a + b)[0] == a[0]
  {
  }

  /** The bytes of a list of chunks, in order. */
  function Flatten(chunks: seq<bytes>): bytes {
    if chunks == [] then [] else chunks[0] + Flatten(chunks[1..])
  }

  /** The total length of a list of byte strings. */
  function TotalLength(items: seq<bytes>): nat {
    if items == [] then 0 else TotalLength(items[..|items| - 1]) + |items[|items| - 1]|
  }

  lemma TotalLengthSnoc(items: seq<bytes>, item: bytes)
    ensures TotalLength(items + [item]) == TotalLength(items) + |item|
  {
    assert (items + [item])[..|items|] == items;
  }

  /** part can be obtained from whole by deleting elements and keeping the order of the rest. */
  ghost predicate Subsequence<T>(part: seq<T>, whole: seq<T>) {
    if part == [] then true
    else if whole == [] then false
    else
      || (part[|part| - 1] == whole[|whole| - 1]
          && Subsequence(part[..|part| - 1], whole[..|whole| - 1]))
      || Subsequence(part, whole[..|whole| - 1])
  }

  lemma SubsequenceKeep<T>(part: seq<T>, whole: seq<T>, x: T)
    requires Subsequence(part, whole)
    ensures Subsequence(part + [x], whole + [x])
  {
    assert (part + [x])[..|part|] == part;
    assert (whole + [x])[..|whole|] == whole;
  }

  lemma SubsequenceSkip<T>(part: seq<T>, whole: seq<T>, x: T)
    requires Subsequence(part, whole)
    ensures Subsequence(part, whole + [x])
  {
    assert (whole + [x])[..|whole|] == whole;
  }

  lemma {:induction false} SubsequencePrefix<T>(part: seq<T>, n: nat, whole: seq<T>)
    requires Subsequence(part, whole) && n <= |part|
    ensures Subsequence(part[..n], whole)
    decreases |whole|
  {
    if n == 0 || n == |part| {
      assert part[..|part|] == part;
    } else {
      var shorter := whole[..|whole| - 1];
      if Subsequence(part, shorter) {
        SubsequencePrefix(part, n, shorter);
      } else {
        SubsequencePrefix(part[..|part| - 1], n, shorter);
        assert part[..|part| - 1][..n] == part[..n];
      }
    }
  }

  lemma {:induction false} SubsequenceMembers<T>(part: seq<T>, whole: seq<T>)
    requires Subsequence(part, whole)
    ensures forall x <- part :: x in whole
    decreases |whole|
  {
    if part != [] {
      var shorter := whole[..|whole| - 1];
      if Subsequence(part, shorter) {
        SubsequenceMembers(part, shorter);
      } else {
        SubsequenceMembers(part[..|part| - 1], shorter);
        assert part == part[..|part| - 1] + [part[|part| - 1]];
      }
    }
  }

  /** Each state of a trace leads to the next by the action between them. */
  ghost predicate Steps<S, A>(trace: seq<S>, actions: seq<A>, step: (S, A, S) -> bool) {
    && |trace| == |actions| + 1
    && forall i | 0 <= i < |actions| :: step(trace[i], actions[i], trace[i + 1])
  }

  lemma StepsSnoc<S, A>(trace: seq<S>, actions: seq<A>, step: (S, A, S) -> bool, a: A, s: S)
    requires Steps(trace, actions, step) && step(trace[|actions|], a, s)
    ensures Steps(trace + [s], actions + [a], step)
  {
    var trace', actions' := trace + [s], actions + [a];
    forall i | 0 <= i < |actions'| ensures step(trace'[i], actions'[i], trace'[i + 1]) {
      if i < |actions| {
        assert trace'[i] == trace[i] && trace'[i + 1] == trace[i + 1] && actions'[i] == actions[i];
      }
    }
  }
}
