/** The parts of the postcard wire format the protocol relies on: variable-length integers,
    length-prefixed byte strings and lists. Every encoder is self-delimiting, so concatenated
    fields split in one way only. */
module Postcard {
  import opened Base

  /** Seven bits a byte, least significant group first, high bit set on all but the last byte. */
  function Varint(n: nat): (r: Bytes)
    ensures |r| >= 1
  {
    if n < 0x80 then [n] else [n % 0x80 + 0x80] + Varint(n / 0x80)
  }

  /** The number a variable-length integer stands for. */
  function VarintValue(b: Bytes): nat {
    if b == [] then 0 else b[0] % 0x80 + 0x80 * VarintValue(b[1..])
  }

  lemma {:induction false} ValueOfCons(head: Byte, rest: Bytes)
    ensures VarintValue([head] + rest) == head % 0x80 + 0x80 * VarintValue(rest)
  {
    assert ([head] + rest)[1..] == rest;
  }

  /** The encoding stands for the number it encodes. */
  lemma {:induction false} VarintReads(n: nat)
    ensures VarintValue(Varint(n)) == n
  {
    if n < 0x80 {
      ValueOfCons(n, []);
    } else {
      VarintReads(n / 0x80);
      ValueOfCons(n % 0x80 + 0x80, Varint(n / 0x80));
    }
  }

  /** Its last byte is the only one below 128. */
  lemma {:induction false} VarintEnds(n: nat)
    ensures var b := Varint(n); b[|b| - 1] < 0x80 && forall i :: 0 <= i < |b| - 1 ==> b[i] >= 0x80
  {
    if n >= 0x80 {
      VarintEnds(n / 0x80);
    }
  }

  function Block(b: Bytes): Bytes {
    Varint(|b|) + b
  }

  function Blocks(bs: seq<Bytes>): Bytes {
    if bs == [] then [] else Block(bs[0]) + Blocks(bs[1..])
  }

  function BlockList(bs: seq<Bytes>): Bytes {
    Varint(|bs|) + Blocks(bs)
  }

  lemma {:induction false} VarintSplits(m: nat, n: nat, x: Bytes, y: Bytes)
    requires Varint(m) + x == Varint(n) + y
    ensures m == n && x == y
  {
    var l, r := Varint(m) + x, Varint(n) + y;
    assert l[0] == Varint(m)[0] && r[0] == Varint(n)[0];
    if m < 0x80 || n < 0x80 {
      assert l[1..] == x && r[1..] == y;
    } else {
      assert l[1..] == Varint(m / 0x80) + x;
      assert r[1..] == Varint(n / 0x80) + y;
      VarintSplits(m / 0x80, n / 0x80, x, y);
    }
  }

  lemma {:induction false} BlockSplits(a: Bytes, b: Bytes, x: Bytes, y: Bytes)
    requires Block(a) + x == Block(b) + y
    ensures a == b && x == y
  {
    assert Block(a) + x == Varint(|a|) + (a + x);
    assert Block(b) + y == Varint(|b|) + (b + y);
    VarintSplits(|a|, |b|, a + x, b + y);
    assert a == (a + x)[..|a|] && b == (b + y)[..|b|];
    assert x == (a + x)[|a|..] && y == (b + y)[|b|..];
  }

  lemma {:induction false} BlocksSplit(a: seq<Bytes>, b: seq<Bytes>, x: Bytes, y: Bytes)
    requires |a| == |b| && Blocks(a) + x == Blocks(b) + y
    ensures a == b && x == y
  {
    if a == [] {
      assert Blocks(a) + x == x && Blocks(b) + y == y;
    } else {
      assert Blocks(a) + x == Block(a[0]) + (Blocks(a[1..]) + x);
      assert Blocks(b) + y == Block(b[0]) + (Blocks(b[1..]) + y);
      BlockSplits(a[0], b[0], Blocks(a[1..]) + x, Blocks(b[1..]) + y);
      BlocksSplit(a[1..], b[1..], x, y);
      assert a == [a[0]] + a[1..] && b == [b[0]] + b[1..];
    }
  }

  lemma {:induction false} BlockListSplits(a: seq<Bytes>, b: seq<Bytes>, x: Bytes, y: Bytes)
    requires BlockList(a) + x == BlockList(b) + y
    ensures a == b && x == y
  {
    assert BlockList(a) + x == Varint(|a|) + (Blocks(a) + x);
    assert BlockList(b) + y == Varint(|b|) + (Blocks(b) + y);
    VarintSplits(|a|, |b|, Blocks(a) + x, Blocks(b) + y);
    BlocksSplit(a, b, x, y);
  }
}
