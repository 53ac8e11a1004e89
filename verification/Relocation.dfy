/** Back-patching (relocation.c): places in emitted code whose value is filled in when the label they refer to
    has an offset. */
module Relocations {

  type Byte = x: nat | x < 256

  datatype RelocType = Relative | Absolute

  datatype RelocSize = Int8 | Int16 | Int32 | Int64

  function SizeOf(s: RelocSize): nat {
    match s
    case Int8 => 1
    case Int16 => 2
    case Int32 => 4
    case Int64 => 8
  }

  function Pow256(n: nat): (r: nat)
    ensures r > 0
  {
    if n == 0 then 1 else 256 * Pow256(n - 1)
  }

  /** The number that little-endian bytes stand for. */
  function LeValue(s: seq<Byte>): nat {
    if s == [] then 0 else s[0] + 256 * LeValue(s[1..])
  }

  lemma {:induction false} LeBound(s: seq<Byte>)
    ensures LeValue(s) < Pow256(|s|)
  {
    if s != [] {
      LeBound(s[1..]);
    }
  }

  /** Byte i counts 256^i times. */
  lemma {:induction false} LeByte(s: seq<Byte>, i: nat)
    requires i < |s|
    ensures LeValue(s) == LeValue(s[..i]) + Pow256(i) * s[i] + Pow256(i + 1) * LeValue(s[i+1..])
    ensures LeValue(s[..i]) < Pow256(i)
  {
    LeBound(s[..i]);
    LeSplit(s, i);
    assert s[i..][1..] == s[i+1..];
    Distribute(Pow256(i), s[i], LeValue(s[i+1..]));
  }

  lemma {:induction false} Distribute(p: nat, b: nat, v: nat)
    ensures p * (b + 256 * v) == p * b + (256 * p) * v
  {
    assert p * (256 * v) == (256 * p) * v;
  }

  lemma {:induction false} LeSplit(s: seq<Byte>, i: nat)
    requires i <= |s|
    ensures LeValue(s) == LeValue(s[..i]) + Pow256(i) * LeValue(s[i..])
    decreases i
  {
    if i == 0 {
      assert s[..0] == [] && s[0..] == s;
    } else {
      LeSplit(s[1..], i - 1);
      assert s[1..][..i-1] == s[..i][1..] && s[1..][i-1..] == s[i..];
      Carry(s[0], LeValue(s[..i][1..]), Pow256(i - 1), LeValue(s[i..]));
    }
  }

  lemma {:induction false} Carry(b: nat, low: nat, p: nat, high: nat)
    ensures b + 256 * (low + p * high) == (b + 256 * low) + (256 * p) * high
  {
    assert 256 * (p * high) == (256 * p) * high;
  }

  lemma {:induction false} LeSnoc(s: seq<Byte>, b: Byte)
    ensures LeValue(s + [b]) == LeValue(s) + Pow256(|s|) * b
  {
    if s == [] {
      assert [b][1..] == [];
    } else {
      assert (s + [b])[1..] == s[1..] + [b];
      LeSnoc(s[1..], b);
      var p := Pow256(|s| - 1);
      assert 256 * (p * b) == (256 * p) * b;
    }
  }

  lemma {:induction false} RemainderIs(x: int, q: int, r: nat, m: nat)
    requires m > 0 && r < m && x == r + m * q
    ensures x % m == r
  {
    var d := x / m - q;
    assert x == m * (x / m) + x % m;
    assert m * d == m * (x / m) - m * q;
    if d >= 1 {
      AtLeast(m, d);
    } else if d <= -1 {
      AtLeast(m, -d);
    }
  }

  lemma {:induction false} AtLeast(m: nat, d: int)
    requires d >= 1
    ensures m * d >= m
  {
    assert m * (d - 1) >= 0;
    assert m * d == m * (d - 1) + m;
  }

  /** Multiples of the modulus do not matter. */
  lemma {:induction false} DropMultiple(x: int, k: int, m: nat)
    requires m > 0
    ensures (x + m * k) % m == x % m
  {
    assert x == m * (x / m) + x % m;
    assert x + m * k == x % m + m * (x / m + k);
    RemainderIs(x + m * k, x / m + k, x % m, m);
  }

  /** writeLong: the low bytes of a number, least significant first. */
  method WriteLong(a: array<Byte>, at: nat, num: nat, bytes: nat)
    requires at + bytes <= a.Length
    modifies a
    ensures LeValue(a[at..at+bytes]) == num % Pow256(bytes)
    ensures forall i :: 0 <= i < a.Length && !(at <= i < at + bytes) ==> a[i] == old(a[i])
  {
    var n := num;
    for i := 0 to bytes
      invariant num == LeValue(a[at..at+i]) + Pow256(i) * n
      invariant forall k :: 0 <= k < a.Length && !(at <= k < at + i) ==> a[k] == old(a[k])
    {
      ghost var s := a[at..at+i];
      a[at+i] := n % 256;
      assert a[at..at+i+1] == s + [n % 256];
      LeSnoc(s, n % 256);
      ShiftOut(Pow256(i), n);
      n := n / 256;
    }
    LeBound(a[at..at+bytes]);
    RemainderIs(num, n, LeValue(a[at..at+bytes]), Pow256(bytes));
  }

  lemma {:induction false} ShiftOut(p: nat, n: nat)
    ensures p * n == p * (n % 256) + 256 * p * (n / 256)
  {
    assert n == n % 256 + 256 * (n / 256);
    assert p * n == p * (n % 256) + p * (256 * (n / 256));
    assert p * (256 * (n / 256)) == 256 * p * (n / 256);
  }

  // ---------------------------------------------------------------- sites

  /** A place of size bytes at offset, to be filled for a label. */
  datatype Reloc = Reloc(kind: RelocType, size: RelocSize, bias: int, offset: nat)

  function EndOf(r: Reloc): nat {
    r.offset + SizeOf(r.size)
  }

  predicate Apart(r: Reloc, s: Reloc) {
    EndOf(r) <= s.offset || EndOf(s) <= r.offset
  }

  /** The sites lie within n bytes and do not overlap. */
  ghost predicate SitesOk(sites: seq<Reloc>, n: nat) {
    && (forall i :: 0 <= i < |sites| ==> EndOf(sites[i]) <= n)
    && (forall i, j :: 0 <= i < j < |sites| ==> Apart(sites[i], sites[j]))
  }

  /** Every relocation of a label is the site it belongs to, each once. */
  ghost predicate Selects(relocations: seq<Reloc>, at: seq<nat>, sites: seq<Reloc>) {
    && |relocations| == |at|
    && (forall i :: 0 <= i < |at| ==> at[i] < |sites| && sites[at[i]] == relocations[i])
    && (forall i, j :: 0 <= i < j < |at| ==> at[i] != at[j])
  }

  lemma {:induction false} SelectedAreApart(relocations: seq<Reloc>, at: seq<nat>, sites: seq<Reloc>, n: nat)
    requires SitesOk(sites, n) && Selects(relocations, at, sites)
    ensures SitesOk(relocations, n)
  {
    forall i, j | 0 <= i < j < |relocations|
      ensures Apart(relocations[i], relocations[j])
    {
      if at[i] < at[j] {
        assert Apart(sites[at[i]], sites[at[j]]);
      } else {
        assert Apart(sites[at[j]], sites[at[i]]);
      }
    }
  }

  /** A label: where it is, and the sites that wait for it, the latest first. */
  class Label {
    var hasOffset: bool
    var offset: nat
    var relocations: seq<Reloc>
    ghost var at: seq<nat>      // the numbers of these sites among all sites of the buffer

    constructor ()
      ensures !hasOffset && relocations == [] && at == []
    {
      hasOffset, offset, relocations, at := false, 0, [], [];
    }

    method SetOffset(offset: nat)
      modifies this`offset, this`hasOffset
      ensures this.offset == offset && hasOffset
    {
      this.offset := offset;
      hasOffset := true;
    }
  }

  /** The buffer into which code is emitted. */
  class CodeBuffer {
    var bytes: seq<Byte>
    ghost var sites: seq<Reloc>   // every site emitted so far

    ghost predicate Valid()
      reads this
    {
      SitesOk(sites, |bytes|)
    }

    /** The label only waits for sites of this buffer. */
    ghost predicate Knows(l: Label)
      reads this, l
    {
      Selects(l.relocations, l.at, sites)
    }

    constructor ()
      ensures Valid() && bytes == [] && sites == []
    {
      bytes, sites := [], [];
    }

    method Push(b: Byte)
      requires Valid()
      modifies this`bytes
      ensures Valid() && bytes == old(bytes) + [b]
    {
      bytes := bytes + [b];
    }

    /** Leaves room for the value of a label; the new site overlaps no other. */
    method RelocationEmit(l: Label, kind: RelocType, size: RelocSize, bias: int)
      requires Valid() && Knows(l)
      modifies this, l`relocations, l`at
      ensures Valid() && Knows(l)
      ensures l.relocations == [Reloc(kind, size, bias, |old(bytes)|)] + old(l.relocations)
      ensures sites == old(sites) + [Reloc(kind, size, bias, |old(bytes)|)]
      ensures bytes == old(bytes) + Zeros(SizeOf(size))
      ensures |bytes| == |old(bytes)| + match size case Int8 => 1 case Int16 => 2 case Int32 => 4 case Int64 => 8
    {
      var r := Reloc(kind, size, bias, |bytes|);
      l.relocations := [r] + l.relocations;
      l.at := [|sites|] + l.at;
      sites := sites + [r];
      bytes := bytes + Zeros(SizeOf(size));
    }

  }

  function Zeros(n: nat): (s: seq<Byte>)
    ensures |s| == n && forall i :: 0 <= i < n ==> s[i] == 0
  {
    if n == 0 then [] else [0] + Zeros(n - 1)
  }

  // ---------------------------------------------------------------- applying a label

  const WORD: nat := 0x1_0000_0000_0000_0000

  /** The value that goes into a site when the label is at an offset and the code at a memory location:
      64-bit arithmetic, cut to the size of the site. */
  function Patch(r: Reloc, offset: nat, memLocation: nat): nat {
    var v := if r.kind == Absolute then offset % WORD else (offset - (memLocation + r.offset + r.bias)) % WORD;
    v % Pow256(SizeOf(r.size))
  }

  /** The sizes in bytes, and the moduli that go with them: 2^8, 2^16, 2^32 and 2^64. */
  lemma {:induction false} Moduli(s: RelocSize)
    ensures SizeOf(s) == match s case Int8 => 1 case Int16 => 2 case Int32 => 4 case Int64 => 8
    ensures Pow256(SizeOf(s)) ==
      match s case Int8 => 0x100 case Int16 => 0x1_0000 case Int32 => 0x1_0000_0000 case Int64 => 0x1_0000_0000_0000_0000
  {
    assert Pow256(1) == 256;
    assert Pow256(2) == 256 * Pow256(1) == 65536;
    assert Pow256(3) == 256 * Pow256(2);
    assert Pow256(4) == 256 * Pow256(3) == 0x1_0000_0000;
    assert Pow256(5) == 256 * Pow256(4);
    assert Pow256(6) == 256 * Pow256(5);
    assert Pow256(7) == 256 * Pow256(6);
    assert Pow256(8) == 256 * Pow256(7);
  }

  lemma {:induction false} WordIsMultiple(s: RelocSize)
    ensures exists k: nat :: WORD == Pow256(SizeOf(s)) * k
  {
    assert Pow256(1) == 256;
    assert Pow256(2) == 256 * Pow256(1) == 65536;
    assert Pow256(3) == 256 * Pow256(2);
    assert Pow256(4) == 256 * Pow256(3) == 0x1_0000_0000;
    assert Pow256(5) == 256 * Pow256(4);
    assert Pow256(6) == 256 * Pow256(5);
    assert Pow256(7) == 256 * Pow256(6);
    assert Pow256(8) == 256 * Pow256(7) == WORD;
    match s
    case Int8 => assert WORD == Pow256(SizeOf(s)) * 0x100_0000_0000_0000;
    case Int16 => assert WORD == Pow256(SizeOf(s)) * 0x1_0000_0000_0000;
    case Int32 => assert WORD == Pow256(SizeOf(s)) * 0x1_0000_0000;
    case Int64 => assert WORD == Pow256(SizeOf(s)) * 1;
  }

  /** The 64-bit wrap-around disappears in the smaller sizes. */
  lemma {:induction false} WrapDisappears(x: int, s: RelocSize)
    ensures (x % WORD) % Pow256(SizeOf(s)) == x % Pow256(SizeOf(s))
  {
    WordIsMultiple(s);
    var m := Pow256(SizeOf(s));
    var k: nat :| WORD == m * k;
    var q := x / WORD;
    assert x == WORD * q + x % WORD;
    assert WORD * q == m * (k * q);
    DropMultiple(x % WORD, k * q, m);
  }

  /** A relative site holds the distance from its own (biased) address to the label, modulo its size. */
  lemma {:induction false} RelativeReachesLabel(r: Reloc, offset: nat, memLocation: nat)
    requires r.kind == Relative
    ensures var m := match r.size
        case Int8 => 0x100 case Int16 => 0x1_0000 case Int32 => 0x1_0000_0000 case Int64 => 0x1_0000_0000_0000_0000;
      (Patch(r, offset, memLocation) + memLocation + r.offset + r.bias) % m == offset % m
  {
    Moduli(r.size);
    hide Pow256;
    var m := Pow256(SizeOf(r.size));
    var base := memLocation + r.offset + r.bias;
    WrapDisappears(offset - base, r.size);
    assert Patch(r, offset, memLocation) == (offset - base) % m;
    AddBack(offset, base, m);
    assert Patch(r, offset, memLocation) + memLocation + r.offset + r.bias == (offset - base) % m + base;
  }

  lemma {:induction false} AddBack(x: int, base: int, m: nat)
    requires m > 0
    ensures ((x - base) % m + base) % m == x % m
  {
    var d := x - base;
    assert d == m * (d / m) + d % m;
    DropMultiple(d % m + base, d / m, m);
  }

  /** An absolute site holds the offset itself. */
  lemma {:induction false} AbsoluteHoldsOffset(r: Reloc, offset: nat, memLocation: nat)
    requires r.kind == Absolute
    ensures Patch(r, offset, memLocation) == offset % match r.size
        case Int8 => 0x100 case Int16 => 0x1_0000 case Int32 => 0x1_0000_0000 case Int64 => 0x1_0000_0000_0000_0000
  {
    Moduli(r.size);
    hide Pow256;
    WrapDisappears(offset, r.size);
  }

  ghost predicate InSite(rs: seq<Reloc>, i: int) {
    exists k :: 0 <= k < |rs| && rs[k].offset <= i < EndOf(rs[k])
  }

  /** Site r of the memory holds its patch. */
  ghost predicate Patched(a: array<Byte>, r: Reloc, offset: nat, memLocation: nat)
    requires EndOf(r) <= a.Length
    reads a
  {
    LeValue(a[r.offset..EndOf(r)]) == Patch(r, offset, memLocation)
  }

  /** Fills the sites of a label, and nothing else, and forgets them. */
  method ApplyMemory(l: Label, a: array<Byte>, memLocation: nat)
    requires SitesOk(l.relocations, a.Length)
    modifies a, l`relocations, l`at
    ensures forall k :: 0 <= k < |old(l.relocations)| ==> Patched(a, old(l.relocations)[k], l.offset, memLocation)
    ensures forall i :: 0 <= i < a.Length && !InSite(old(l.relocations), i) ==> a[i] == old(a[i])
    ensures l.relocations == []
  {
    var rs := l.relocations;
    for n := 0 to |rs|
      invariant forall k :: 0 <= k < n ==> Patched(a, rs[k], l.offset, memLocation)
      invariant forall i :: 0 <= i < a.Length && !InSite(rs, i) ==> a[i] == old(a[i])
    {
      var r := rs[n];
      ghost var before := a[..];
      WriteLong(a, r.offset, Patch(r, l.offset, memLocation), SizeOf(r.size));
      forall k | 0 <= k < n
        ensures Patched(a, rs[k], l.offset, memLocation)
      {
        assert Apart(rs[k], r);
        assert a[rs[k].offset..EndOf(rs[k])] == before[rs[k].offset..EndOf(rs[k])];
      }
      assert Patched(a, r, l.offset, memLocation) by { PatchFits(r, l.offset, memLocation); }
    }
    l.relocations, l.at := [], [];
  }

  lemma {:induction false} PatchFits(r: Reloc, offset: nat, memLocation: nat)
    ensures Patch(r, offset, memLocation) % Pow256(SizeOf(r.size)) == Patch(r, offset, memLocation)
  {
    var v := if r.kind == Absolute then offset % WORD else (offset - (memLocation + r.offset + r.bias)) % WORD;
    RemainderIs(Patch(r, offset, memLocation), 0, v % Pow256(SizeOf(r.size)), Pow256(SizeOf(r.size)));
  }
}
