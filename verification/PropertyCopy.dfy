/**
  The packed deep copy of a property array: one allocation holds the copied
  entries, then the bytes of all their values, back to back.
 */
module PropertyCopy {
  import opened Options

  newtype byte = x: int | 0 <= x < 256

  /** A property; `val` is the readable memory behind its value address. */
  datatype Property = Property(kind: int, len: int, val: seq<byte>)

  /**
    A cell of the one block that holds the copy: first one cell per entry, then
    one per byte of content.  The value address of an entry is an index into
    that same block, or null.
   */
  datatype Cell = Entry(kind: int, len: int, val: Option<nat>) | Byte(value: byte)

  function Bytes(val: seq<byte>): seq<Cell> {
    seq(|val|, i requires 0 <= i < |val| => Byte(val[i]))
  }

  function Size(p: Property): nat {
    if p.len > 0 then p.len else 0
  }

  /** Where the value of entry `i` starts: after the values of all earlier entries. */
  function Offset(ps: seq<Property>, i: nat): nat
    requires i <= |ps|
  {
    if i == 0 then 0 else Offset(ps, i - 1) + Size(ps[i - 1])
  }

  predicate Readable(ps: seq<Property>) {
    forall i :: 0 <= i < |ps| ==> |ps[i].val| >= Size(ps[i])
  }

  /** Where the value of entry `i` starts in a block that begins with the entries. */
  function Address(ps: seq<Property>, i: nat): nat
    requires i <= |ps|
  {
    |ps| + Offset(ps, i)
  }

  function CopiedEntry(ps: seq<Property>, i: nat): Cell
    requires i < |ps|
  {
    Entry(ps[i].kind, ps[i].len, if ps[i].len > 0 then Some(Address(ps, i)) else None)
  }

  /** The bytes of entry `i` are at its address. */
  predicate HoldsValue(block: seq<Cell>, ps: seq<Property>, i: nat)
    requires i < |ps|
  {
    && Address(ps, i) + Size(ps[i]) <= |block|
    && |ps[i].val| >= Size(ps[i])
    && block[Address(ps, i)..Address(ps, i) + Size(ps[i])] == Bytes(ps[i].val[..Size(ps[i])])
  }

  lemma {:induction false} OffsetsGrow(ps: seq<Property>, i: nat, j: nat)
    requires i <= j <= |ps|
    ensures Offset(ps, i) <= Offset(ps, j)
    ensures i < j ==> Offset(ps, i) + Size(ps[i]) <= Offset(ps, j)
    decreases j - i
  {
    if i < j - 1 {
      OffsetsGrow(ps, i, j - 1);
    }
  }

  /** The values of two entries share no byte, and every value ends within the content. */
  lemma ValuesDisjoint(ps: seq<Property>, i: nat, j: nat, k: nat)
    requires i < |ps| && j < |ps| && i != j
    requires Offset(ps, i) <= k < Offset(ps, i) + Size(ps[i])
    ensures !(Offset(ps, j) <= k < Offset(ps, j) + Size(ps[j]))
    ensures k < Offset(ps, |ps|)
  {
    OffsetsGrow(ps, i, |ps|);
    if i < j { OffsetsGrow(ps, i, j); } else { OffsetsGrow(ps, j, i); }
  }

  /** Every byte of the content belongs to some value: the copy needs exactly what was counted. */
  lemma {:induction false} ContentIsCovered(ps: seq<Property>, n: nat, k: nat) returns (i: nat)
    requires n <= |ps| && k < Offset(ps, n)
    ensures i < n && Offset(ps, i) <= k < Offset(ps, i) + Size(ps[i])
  {
    if k < Offset(ps, n - 1) {
      i := ContentIsCovered(ps, n - 1, k);
    } else {
      i := n - 1;
    }
  }

  /** The first loop: how many content bytes are needed. */
  method ContentLength(ps: seq<Property>) returns (contentLen: nat)
    ensures contentLen == Offset(ps, |ps|)
  {
    contentLen := 0;
    for i := 0 to |ps|
      invariant contentLen == Offset(ps, i)
    {
      var len := ps[i].len;
      if len > 0 {
        contentLen := contentLen + len;
      }
    }
  }

  method CopyBytes(block: array<Cell>, at: nat, val: seq<byte>, len: nat)
    requires at + len <= block.Length && len <= |val|
    modifies block
    ensures block[..] == old(block[..at]) + Bytes(val[..len]) + old(block[at + len..])
  {
    for k := 0 to len
      invariant block[..at + k] == old(block[..at]) + Bytes(val[..k])
      invariant block[at + k..] == old(block[at + k..])
    {
      block[at + k] := Byte(val[k]);
      assert Bytes(val[..k + 1]) == Bytes(val[..k]) + [Byte(val[k])];
    }
    assert block[..] == block[..at + len] + block[at + len..];
  }

  /** After `i` turns of the second loop; the entries to come are still zeroed. */
  ghost predicate CopiedUpTo(block: seq<Cell>, ps: seq<Property>, i: nat)
    requires i <= |ps| <= |block|
  {
    && (forall j :: 0 <= j < i ==> block[j] == CopiedEntry(ps, j))
    && (forall j :: i <= j < |ps| ==> block[j].Entry? && block[j].val == None)
    && (forall j :: 0 <= j < i ==> HoldsValue(block, ps, j))
  }

  /** The second loop: entries and values, with a content position that moves along. */
  method CopyEntries(ps: seq<Property>, block: array<Cell>)
    requires Readable(ps) && block.Length == Address(ps, |ps|)
    requires CopiedUpTo(block[..], ps, 0)
    modifies block
    ensures CopiedUpTo(block[..], ps, |ps|)
  {
    hide CopiedUpTo;
    var at := |ps|;
    for i := 0 to |ps|
      invariant at == Address(ps, i) && CopiedUpTo(block[..], ps, i)
    {
      at := CopyEntry(ps, i, block, at);
    }
  }

  method CopyEntry(ps: seq<Property>, i: nat, block: array<Cell>, at: nat) returns (next: nat)
    requires i < |ps| && Readable(ps) && block.Length == Address(ps, |ps|) && at == Address(ps, i)
    requires CopiedUpTo(block[..], ps, i)
    modifies block
    ensures next == Address(ps, i + 1) && CopiedUpTo(block[..], ps, i + 1)
  {
    hide CopiedUpTo, EntryWritten, HoldsValue, Bytes;
    var len := ps[i].len;
    OffsetsGrow(ps, i, |ps|);
    NextIsZeroed(block[..], ps, i);
    EntryStep(block[..], ps, i);
    ghost var written := block[..][i := CopiedEntry(ps, i)];
    block[i] := block[i].(kind := ps[i].kind);
    block[i] := block[i].(len := len);
    if len <= 0 {
      assert block[..] == written;
      return at;
    }
    block[i] := block[i].(val := Some(at));
    assert block[..] == written;
    CopyBytes(block, at, ps[i].val, len);
    ValueStep(written, block[..], ps, i);
    next := at + len;
  }

  lemma NextIsZeroed(block: seq<Cell>, ps: seq<Property>, i: nat)
    requires i < |ps| <= |block| && CopiedUpTo(block, ps, i)
    ensures block[i].Entry? && block[i].val == None
  {
  }

  /** The entries are written and the values of earlier entries are in place. */
  ghost predicate EntryWritten(block: seq<Cell>, ps: seq<Property>, i: nat)
    requires i < |ps| <= |block|
  {
    && (forall j :: 0 <= j <= i ==> block[j] == CopiedEntry(ps, j))
    && (forall j :: i < j < |ps| ==> block[j].Entry? && block[j].val == None)
    && (forall j :: 0 <= j < i ==> HoldsValue(block, ps, j))
  }

  /** Writing an entry disturbs no value; without a value it completes the turn. */
  lemma EntryStep(before: seq<Cell>, ps: seq<Property>, i: nat)
    requires i < |ps| && Readable(ps) && |before| == Address(ps, |ps|) && CopiedUpTo(before, ps, i)
    ensures EntryWritten(before[i := CopiedEntry(ps, i)], ps, i)
    ensures ps[i].len <= 0 ==> CopiedUpTo(before[i := CopiedEntry(ps, i)], ps, i + 1)
  {
    hide CopiedEntry, Bytes;
    var after := before[i := CopiedEntry(ps, i)];
    OffsetsGrow(ps, i, |ps|);
    forall j | 0 <= j < i ensures HoldsValue(after, ps, j) {
      assert HoldsValue(before, ps, j);
      assert before[Address(ps, j)..Address(ps, j) + Size(ps[j])] == after[Address(ps, j)..Address(ps, j) + Size(ps[j])];
    }
    if ps[i].len <= 0 {
      NothingToHold(after, ps, i);
      hide HoldsValue;
    }
  }

  lemma NothingToHold(block: seq<Cell>, ps: seq<Property>, i: nat)
    requires i < |ps| && ps[i].len <= 0 && Address(ps, i) <= |block|
    ensures HoldsValue(block, ps, i)
  {
  }

  /** Copying a value disturbs no entry and no earlier value. */
  lemma ValueStep(before: seq<Cell>, after: seq<Cell>, ps: seq<Property>, i: nat)
    requires i < |ps| && Readable(ps) && ps[i].len > 0 && |before| == Address(ps, |ps|)
    requires Address(ps, i) + ps[i].len <= |before| && EntryWritten(before, ps, i)
    requires after == before[..Address(ps, i)] + Bytes(ps[i].val[..ps[i].len]) + before[Address(ps, i) + ps[i].len..]
    ensures |after| == |before| && CopiedUpTo(after, ps, i + 1)
  {
    var at := Address(ps, i);
    assert |after| == |before|;
    assert after[..at] == before[..at];
    forall j | 0 <= j < |ps| ensures after[j] == before[j] {}
    forall j | 0 <= j < i ensures HoldsValue(after, ps, j) {
      OffsetsGrow(ps, j, i);
      assert HoldsValue(before, ps, j);
      PrefixKeepsValue(before, after, ps, at, j);
    }
    assert after[at..at + ps[i].len] == Bytes(ps[i].val[..ps[i].len]);
    assert HoldsValue(after, ps, i);
    hide HoldsValue, CopiedEntry, Bytes;
  }

  lemma SliceOfPrefix(s: seq<Cell>, n: nat, lo: nat, hi: nat)
    requires lo <= hi <= n <= |s|
    ensures s[..n][lo..hi] == s[lo..hi]
  {
  }

  lemma PrefixKeepsValue(before: seq<Cell>, after: seq<Cell>, ps: seq<Property>, n: nat, j: nat)
    requires j < |ps| && HoldsValue(before, ps, j) && Address(ps, j) + Size(ps[j]) <= n
    requires n <= |before| && n <= |after| && before[..n] == after[..n]
    ensures HoldsValue(after, ps, j)
  {
    hide Offset;
    SliceOfPrefix(before, n, Address(ps, j), Address(ps, j) + Size(ps[j]));
    SliceOfPrefix(after, n, Address(ps, j), Address(ps, j) + Size(ps[j]));
  }

  /**
    Entry `i` of a block with `n` entries is a copy of `p`: the same kind and
    length, null exactly without a value, and otherwise the address of the same
    bytes, inside the block and after its entries.
   */
  predicate CopyOf(block: seq<Cell>, i: nat, n: nat, p: Property)
    requires i < |block|
  {
    var e := block[i];
    && e.Entry? && e.kind == p.kind && e.len == p.len && (e.val.None? <==> p.len <= 0)
    && (e.val.Some? && p.len <= |p.val| ==>
          n <= e.val.value && e.val.value + p.len <= |block|
          && block[e.val.value..e.val.value + p.len] == Bytes(p.val[..p.len]))
  }

  /** The values of two entries do not overlap, and lie in the order of the entries. */
  predicate InOrder(e: Cell, f: Cell) {
    e.Entry? && f.Entry? && (e.val.Some? && f.val.Some? ==> e.val.value + e.len <= f.val.value)
  }

  lemma CopiesAreCopies(block: seq<Cell>, ps: seq<Property>)
    requires Readable(ps) && |block| == Address(ps, |ps|) && CopiedUpTo(block, ps, |ps|)
    ensures forall i :: 0 <= i < |ps| ==> CopyOf(block, i, |ps|, ps[i])
    ensures forall i, j :: 0 <= i < j < |ps| ==> InOrder(block[i], block[j])
  {
    hide Bytes;
    forall i | 0 <= i < |ps| ensures CopyOf(block, i, |ps|, ps[i]) {
      assert block[i] == CopiedEntry(ps, i) && HoldsValue(block, ps, i);
    }
    forall i, j | 0 <= i < j < |ps| ensures InOrder(block[i], block[j]) {
      OffsetsGrow(ps, i, j);
      assert block[i] == CopiedEntry(ps, i) && block[j] == CopiedEntry(ps, j);
    }
  }

  /** The copy is null exactly when there is nothing to copy; otherwise it is one block. */
  method PropertyDeepCopyArray(numProperties: int, properties: seq<Property>) returns (copy: array?<Cell>)
    requires numProperties <= |properties| && (numProperties > 0 ==> Readable(properties[..numProperties]))
    ensures copy == null <==> numProperties <= 0
    ensures copy != null ==>
              var ps := properties[..numProperties];
              && fresh(copy) && copy.Length == |ps| + Offset(ps, |ps|)
              && (forall i :: 0 <= i < |ps| ==> CopyOf(copy[..], i, |ps|, ps[i]))
              && (forall i, j :: 0 <= i < j < |ps| ==> InOrder(copy[i], copy[j]))
  {
    if numProperties <= 0 {
      return null;
    }
    var ps := properties[..numProperties];
    var contentLen := ContentLength(ps);
    copy := new Cell[numProperties + contentLen](i => if i < numProperties then Entry(0, 0, None) else Byte(0));
    CopyEntries(ps, copy);
    CopiesAreCopies(copy[..], ps);
  }
}
