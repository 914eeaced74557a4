/**
 The bitset of the checker, as a refinement of a finite set of positions.
 A uint64 word is its 64 bits, least significant first; `|`, `&^` and `^` act bit by bit.
 */
module Bitset {
  type Word = w: seq<bool> | |w| == 64 witness seq(64, i => false)

  const ZERO: Word := seq(64, i => false)

  function OneHot(minor: nat): Word
    requires minor < 64
  {
    seq(64, i => i == minor)
  }

  function Or(a: Word, b: Word): Word { seq(64, i requires 0 <= i < 64 => a[i] || b[i]) }

  function And(a: Word, b: Word): Word { seq(64, i requires 0 <= i < 64 => a[i] && b[i]) }

  function AndNot(a: Word, b: Word): Word { seq(64, i requires 0 <= i < 64 => a[i] && !b[i]) }

  function Xor(a: Word, b: Word): Word { seq(64, i requires 0 <= i < 64 => a[i] != b[i]) }

  /** The number of ones among the bits from i on. */
  function OnesFrom(w: Word, i: nat): nat
    requires i <= 64
    decreases 64 - i
  {
    if i == 64 then 0 else (if w[i] then 1 else 0) + OnesFrom(w, i + 1)
  }

  function OnesCount(w: Word): nat { OnesFrom(w, 0) }

  function Pow2(i: nat): nat
    ensures Pow2(i) > 0
  {
    if i == 0 then 1 else 2 * Pow2(i - 1)
  }

  /** The binary representation of n, truncated to 64 bits. */
  function ToWord(n: nat): Word { seq(64, i requires 0 <= i < 64 => (n / Pow2(i)) % 2 == 1) }

  /** The positions held by a sequence of words. */
  ghost function Members(ws: seq<Word>): set<nat> {
    set p: nat | p < 64 * |ws| && ws[p / 64][p % 64]
  }

  function Chunks(bits: nat): nat { bits / 64 + if bits % 64 != 0 then 1 else 0 }

  /** Two word sequences of the same length hold the same positions only if they are equal. */
  lemma MembersInjective(a: seq<Word>, b: seq<Word>)
    requires |a| == |b|
    requires Members(a) == Members(b)
    ensures a == b
  {
    forall i | 0 <= i < |a| ensures a[i] == b[i] {
      forall j | 0 <= j < 64 ensures a[i][j] == b[i][j] {
        var p: nat := 64 * i + j;
        assert p / 64 == i && p % 64 == j;
        assert p in Members(a) <==> p in Members(b);
      }
    }
  }

  lemma SplitPosition(p: nat, pos: nat)
    ensures p == pos <==> p / 64 == pos / 64 && p % 64 == pos % 64
  {
    assert p == 64 * (p / 64) + p % 64;
    assert pos == 64 * (pos / 64) + pos % 64;
  }

  method NewBitset(bits: nat) returns (b: array<Word>)
    ensures fresh(b) && b.Length == Chunks(bits) && bits <= 64 * b.Length < bits + 64
    ensures Members(b[..]) == {}
  {
    b := new Word[Chunks(bits)](i => ZERO);
  }

  method Clone(b: array<Word>) returns (c: array<Word>)
    ensures fresh(c) && c[..] == b[..]
  {
    c := new Word[b.Length](i requires 0 <= i < b.Length reads b => b[i]);
  }

  /** Adds one position, in place, and changes no other. */
  method Set(b: array<Word>, pos: nat)
    requires pos < 64 * b.Length
    modifies b
    ensures Members(b[..]) == old(Members(b[..])) + {pos}
  {
    ghost var before := b[..];
    b[pos / 64] := Or(b[pos / 64], OneHot(pos % 64));
    forall p: nat | p < 64 * b.Length ensures p in Members(b[..]) <==> p in Members(before) || p == pos {
      SplitPosition(p, pos);
    }
  }

  /** Removes one position, in place, and changes no other. */
  method Clear(b: array<Word>, pos: nat)
    requires pos < 64 * b.Length
    modifies b
    ensures Members(b[..]) == old(Members(b[..])) - {pos}
  {
    ghost var before := b[..];
    b[pos / 64] := AndNot(b[pos / 64], OneHot(pos % 64));
    forall p: nat | p < 64 * b.Length ensures p in Members(b[..]) <==> p in Members(before) && p != pos {
      SplitPosition(p, pos);
    }
  }

  method Get(b: array<Word>, pos: nat) returns (r: bool)
    requires pos < 64 * b.Length
    ensures r <==> pos in Members(b[..])
  {
    var both := And(b[pos / 64], OneHot(pos % 64));
    r := both != ZERO;
    assert both[pos % 64] == b[pos / 64][pos % 64];
    assert !both[pos % 64] ==> both == ZERO;
  }

  /* ---- hash ---- */

  function PopCount(ws: seq<Word>): nat {
    if ws == [] then 0 else PopCount(ws[..|ws| - 1]) + OnesCount(ws[|ws| - 1])
  }

  function XorAll(start: Word, ws: seq<Word>): Word {
    if ws == [] then start else Xor(XorAll(start, ws[..|ws| - 1]), ws[|ws| - 1])
  }

  function HashOf(ws: seq<Word>): Word { XorAll(ToWord(PopCount(ws)), ws) }

  method PopCnt(b: array<Word>) returns (total: nat)
    ensures total == PopCount(b[..])
    ensures total == |Members(b[..])|
  {
    total := 0;
    for i := 0 to b.Length
      invariant total == PopCount(b[..i])
    {
      assert b[..i + 1][..i] == b[..i];
      total := total + OnesCount(b[i]);
    }
    assert b[..b.Length] == b[..];
    PopCountIsSize(b[..]);
  }

  /** How many of the words have bit j set. */
  ghost function Column(ws: seq<Word>, j: nat): nat
    requires j < 64
  {
    if ws == [] then 0 else Column(ws[..|ws| - 1], j) + if ws[|ws| - 1][j] then 1 else 0
  }

  ghost predicate Odd(n: nat) { n % 2 == 1 }

  /** Bit j of the binary representation of n. */
  ghost predicate Bit(n: nat, j: nat) { n / Pow2(j) % 2 == 1 }

  lemma {:induction false} XorBits(start: Word, ws: seq<Word>, j: nat)
    requires j < 64
    ensures XorAll(start, ws)[j] <==> (Odd(Column(ws, j)) != start[j])
  {
    if ws != [] { XorBits(start, ws[..|ws| - 1], j); }
  }

  /** Bit j of the hash is the parity of bit j of the number of positions and of the bits j of all words. */
  ghost predicate HashBit(ws: seq<Word>, j: nat)
    requires j < 64
  {
    Odd(Column(ws, j)) != Bit(|Members(ws)|, j)
  }

  lemma HashBits(ws: seq<Word>, j: nat)
    requires j < 64
    ensures HashOf(ws)[j] <==> HashBit(ws, j)
  {
    hide Members, Column, XorAll, PopCount;
    PopCountIsSize(ws);
    XorBits(ToWord(PopCount(ws)), ws, j);
  }

  method Hash(b: array<Word>) returns (hash: Word)
    ensures hash == HashOf(b[..])
    ensures forall j: nat | j < 64 :: hash[j] <==> HashBit(b[..], j)
  {
    hide HashBit, Members, ToWord;
    forall j: nat | j < 64 ensures HashOf(b[..])[j] <==> HashBit(b[..], j) { HashBits(b[..], j); }
    var total := PopCnt(b);
    hash := ToWord(total);
    for i := 0 to b.Length
      invariant hash == XorAll(ToWord(total), b[..i])
    {
      assert b[..i + 1][..i] == b[..i];
      hash := Xor(hash, b[i]);
    }
    assert b[..b.Length] == b[..];
  }

  /** Word-by-word comparison decides equality of the sets. */
  method Equals(b: array<Word>, b2: array<Word>) returns (r: bool)
    ensures r <==> b[..] == b2[..]
    ensures b.Length == b2.Length ==> (r <==> Members(b[..]) == Members(b2[..]))
  {
    if b.Length == b2.Length && Members(b[..]) == Members(b2[..]) { MembersInjective(b[..], b2[..]); }
    if b.Length != b2.Length { return false; }
    for i := 0 to b.Length
      invariant b[..i] == b2[..i]
    {
      if b[i] != b2[i] { return false; }
    }
    assert b[..b.Length] == b[..];
    assert b2[..b2.Length] == b2[..];
    return true;
  }

  ghost function BitsFrom(w: Word, i: nat): set<nat> { set p: nat | i <= p < 64 && w[p] }

  lemma {:induction false} OnesIsSize(w: Word, i: nat)
    requires i <= 64
    ensures OnesFrom(w, i) == |BitsFrom(w, i)|
    decreases 64 - i
  {
    if i == 64 {
      assert BitsFrom(w, i) == {};
    } else {
      OnesIsSize(w, i + 1);
      var tail := BitsFrom(w, i + 1);
      assert BitsFrom(w, i) == if w[i] then tail + {i} else tail;
    }
  }

  ghost function Shift(a: set<nat>, off: nat): set<nat> { set p | p in a :: p + off }

  lemma {:induction false} ShiftSize(a: set<nat>, off: nat)
    ensures |Shift(a, off)| == |a|
  {
    if a != {} {
      var x :| x in a;
      var rest := a - {x};
      ShiftSize(rest, off);
      assert Shift(a, off) == Shift(rest, off) + {x + off} by {
        forall y ensures y in Shift(a, off) <==> y in Shift(rest, off) || y == x + off {
          if y in Shift(a, off) { var p :| p in a && y == p + off; assert p == x || p in rest; }
        }
      }
    }
  }

  /** popcnt is the number of positions held. */
  lemma {:induction false} PopCountIsSize(ws: seq<Word>)
    ensures PopCount(ws) == |Members(ws)|
  {
    if ws != [] {
      var k := |ws| - 1;
      PopCountIsSize(ws[..k]);
      OnesIsSize(ws[k], 0);
      var bits := BitsFrom(ws[k], 0);
      var shifted := Shift(bits, 64 * k);
      ShiftSize(bits, 64 * k);
      forall p: nat ensures p in Members(ws) <==> p in Members(ws[..k]) || p in shifted {
        if p in Members(ws) && p >= 64 * k { assert p - 64 * k in bits && p == (p - 64 * k) + 64 * k; }
        if p in shifted { var b :| b in bits && p == b + 64 * k; assert p / 64 == k && p % 64 == b; }
      }
      assert Members(ws) == Members(ws[..k]) + shifted;
      assert Members(ws[..k]) !! shifted;
    }
  }
}
