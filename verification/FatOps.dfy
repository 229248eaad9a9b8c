/**
 The elementary changes the file operations make to the file system, and what each does to the invariant
 and to the contents of the files.
 */
module FatOps {
  import opened FatLayout

  /** The content of entry `e`; empty for an entry that is not in use. */
  ghost function FileContent(im: Image, lay: Layout, bytes: nat, open: int, e: nat): (s: string)
    requires Inv(im, lay, bytes, open) && e < |im.entries|
  {
    assert FilledAt(im, lay, bytes, open, e);
    Content(im.disk, lay.chains[e])
  }

  lemma ChainLast(im: Image, lay: Layout, bytes: nat, open: int, e: nat)
    requires Inv(im, lay, bytes, open) && e < |im.entries| && im.entries[e].use == 1
    ensures lay.chains[e] != []
    ensures var n := |lay.chains[e]| - 1;
            var b := lay.chains[e][n];
            && b < |im.fat| == |im.disk| && im.fat[b] == LAST && |im.disk[b]| <= bytes
            && forall j :: 0 <= j < n ==> lay.chains[e][j] != b
  {
    assert EntryLinked(im, lay, e);
    var n := |lay.chains[e]| - 1;
    assert LinkAt(im, lay, e, n);
    forall j | 0 <= j < n
      ensures lay.chains[e][j] != lay.chains[e][n]
    {
      assert LinkAt(im, lay, e, j);
    }
  }

  /** No block is on two chains. */
  lemma ChainsDisjoint(im: Image, lay: Layout, d: nat, i: nat, e: nat, j: nat)
    requires Sized(im, lay) && Linked(im, lay)
    requires d < |lay.chains| && i < |lay.chains[d]| && e < |lay.chains| && j < |lay.chains[e]|
    requires lay.chains[d][i] == lay.chains[e][j]
    ensures d == e && i == j
  {
    assert LinkAt(im, lay, d, i);
    assert LinkAt(im, lay, e, j);
  }

  // ---------- one byte ----------

  function PutByte(im: Image, e: nat, b: nat, c: char): (r: Image)
    requires e < |im.entries| && b < |im.disk|
  {
    im.(entries := im.entries[e := im.entries[e].(size := im.entries[e].size + 1)],
        disk := im.disk[b := im.disk[b] + [c]])
  }

  lemma PutByteFilled(im: Image, lay: Layout, bytes: nat, open: int, e: nat, b: nat, c: char, d: nat)
    requires Inv(im, lay, bytes, open) && e < |im.entries| && im.entries[e].use == 1 && d < |im.entries|
    requires lay.chains[e] != [] && b == lay.chains[e][|lay.chains[e]| - 1] && b < |im.disk|
    requires forall j :: 0 <= j < |lay.chains[e]| - 1 ==> lay.chains[e][j] != b
    ensures Sized(PutByte(im, e, b, c), lay)
    ensures FilledAt(PutByte(im, e, b, c), lay, bytes, if open == e then -1 else open, d)
    ensures var r := PutByte(im, e, b, c);
            Content(r.disk, lay.chains[d]) == Content(im.disk, lay.chains[d]) + if d == e then [c] else []
  {
    var r := PutByte(im, e, b, c);
    assert FilledAt(im, lay, bytes, open, d);
    if d == e {
      ContentAppend(im.disk, lay.chains[e], c);
    } else {
      forall j | 0 <= j < |lay.chains[d]|
        ensures lay.chains[d][j] != b
      {
        if lay.chains[d][j] == b {
          ChainsDisjoint(im, lay, d, j, e, |lay.chains[e]| - 1);
        }
      }
      ContentSame(im.disk, r.disk, lay.chains[d]);
      assert Content(im.disk, lay.chains[d]) + [] == Content(im.disk, lay.chains[d]);
    }
  }

  /** Writing a byte to a last block with room keeps the invariant and appends to that one file. */
  lemma PutByteKeeps(im: Image, lay: Layout, bytes: nat, open: int, e: nat, b: nat, c: char)
    requires Inv(im, lay, bytes, open) && e < |im.entries| && im.entries[e].use == 1
    requires lay.chains[e] != [] && b == lay.chains[e][|lay.chains[e]| - 1] && b < |im.disk|
    requires |im.disk[b]| < bytes && c != '\n' && c != '\0'
    ensures var r := PutByte(im, e, b, c);
            var open' := if open == e then -1 else open;
            && Inv(r, lay, bytes, open')
            && FileContent(r, lay, bytes, open', e) == FileContent(im, lay, bytes, open, e) + [c]
            && forall d :: 0 <= d < |im.entries| && d != e ==>
                 FileContent(r, lay, bytes, open', d) == FileContent(im, lay, bytes, open, d)
  {
    var r := PutByte(im, e, b, c);
    var open' := if open == e then -1 else open;
    ChainLast(im, lay, bytes, open, e);
    forall d | 0 <= d < |im.entries|
      ensures FilledAt(r, lay, bytes, open', d)
      ensures InDisk(im.disk, lay.chains[d]) && InDisk(r.disk, lay.chains[d])
      ensures Content(r.disk, lay.chains[d]) == Content(im.disk, lay.chains[d]) + if d == e then [c] else []
    {
      PutByteFilled(im, lay, bytes, open, e, b, c, d);
      assert FilledAt(im, lay, bytes, open, d);
    }
    hide FilledAt;
    hide Content;
    PutByteLinked(im, lay, e, b, c);
    assert Filled(r, lay, bytes, open');
    assert Named(r);
  }

  lemma PutByteLinked(im: Image, lay: Layout, e: nat, b: nat, c: char)
    requires Sized(im, lay) && Linked(im, lay) && e < |im.entries| && b < |im.disk|
    ensures Sized(PutByte(im, e, b, c), lay) && Linked(PutByte(im, e, b, c), lay)
  {
    var r := PutByte(im, e, b, c);
    forall d, j | 0 <= d < |lay.chains| && 0 <= j < |lay.chains[d]|
      ensures LinkAt(r, lay, d, j)
    {
      assert LinkAt(im, lay, d, j);
    }
    forall x | 0 <= x < |r.fat|
      ensures OwnedAt(r, lay, x)
    {
      assert OwnedAt(im, lay, x);
    }
    forall d | 0 <= d < |r.entries|
      ensures EntryLinked(r, lay, d)
    {
      assert EntryLinked(im, lay, d);
    }
  }

  // ---------- a new block for a chain ----------

  /** The chain of entry `e`, ending in `b` or not yet begun, continues with the free block `nb`. */
  function Extend(im: Image, lay: Layout, e: nat, nb: nat): (r: Image)
    requires e < |lay.chains| && nb < |im.fat| == |im.disk|
    requires lay.chains[e] != [] ==> lay.chains[e][|lay.chains[e]| - 1] < |im.fat|
  {
    var chain := lay.chains[e];
    var fat := if chain == [] then im.fat else im.fat[chain[|chain| - 1] := nb];
    im.(fat := fat[nb := LAST], disk := im.disk[nb := ""])
  }

  ghost function ExtendLayout(lay: Layout, e: nat, nb: nat): (r: Layout)
    requires e < |lay.chains| && nb < |lay.owner|
  {
    Layout(lay.chains[e := lay.chains[e] + [nb]], lay.owner[nb := (e, |lay.chains[e]|)])
  }

  lemma FreeOffChain(im: Image, lay: Layout, nb: nat, d: nat, j: nat)
    requires Sized(im, lay) && Linked(im, lay) && nb < |im.fat| && im.fat[nb] == FREE
    requires d < |lay.chains| && j < |lay.chains[d]|
    ensures lay.chains[d][j] != nb && lay.chains[d][j] < |im.fat|
  {
    assert LinkAt(im, lay, d, j);
  }

  lemma ExtendLinkAt(im: Image, lay: Layout, e: nat, nb: nat, d: nat, j: nat)
    requires Sized(im, lay) && Linked(im, lay) && e < |lay.chains| && nb < |im.fat| && im.fat[nb] == FREE
    requires d < |lay.chains| && j < |ExtendLayout(lay, e, nb).chains[d]|
    requires lay.chains[e] != [] ==> lay.chains[e][|lay.chains[e]| - 1] < |im.fat|
    ensures Sized(Extend(im, lay, e, nb), ExtendLayout(lay, e, nb))
    ensures LinkAt(Extend(im, lay, e, nb), ExtendLayout(lay, e, nb), d, j)
  {
    if j < |lay.chains[d]| {
      assert LinkAt(im, lay, d, j);
      FreeOffChain(im, lay, nb, d, j);
      if lay.chains[e] != [] {
        var n := |lay.chains[e]| - 1;
        assert LinkAt(im, lay, e, n);
      }
    }
  }

  lemma ExtendLinked(im: Image, lay: Layout, e: nat, nb: nat)
    requires Sized(im, lay) && Linked(im, lay) && e < |lay.chains| && nb < |im.fat| && im.fat[nb] == FREE
    requires lay.chains[e] != [] ==> lay.chains[e][|lay.chains[e]| - 1] < |im.fat|
    ensures var r, lay' := Extend(im, lay, e, nb), ExtendLayout(lay, e, nb);
            && Sized(r, lay')
            && (forall d, j :: 0 <= d < |lay'.chains| && 0 <= j < |lay'.chains[d]| ==> LinkAt(r, lay', d, j))
            && (forall b :: 0 <= b < |r.fat| ==> OwnedAt(r, lay', b))
  {
    var r, lay' := Extend(im, lay, e, nb), ExtendLayout(lay, e, nb);
    forall d, j | 0 <= d < |lay'.chains| && 0 <= j < |lay'.chains[d]|
      ensures LinkAt(r, lay', d, j)
    {
      ExtendLinkAt(im, lay, e, nb, d, j);
    }
    forall b | 0 <= b < |r.fat|
      ensures OwnedAt(r, lay', b)
    {
      ExtendOwned(im, lay, e, nb, b);
    }
  }

  lemma ExtendOwned(im: Image, lay: Layout, e: nat, nb: nat, b: nat)
    requires Sized(im, lay) && Linked(im, lay) && e < |lay.chains|
    requires nb < |im.fat| && im.fat[nb] == FREE && b < |im.fat|
    requires lay.chains[e] != [] ==> lay.chains[e][|lay.chains[e]| - 1] < |im.fat|
    ensures Sized(Extend(im, lay, e, nb), ExtendLayout(lay, e, nb))
    ensures OwnedAt(Extend(im, lay, e, nb), ExtendLayout(lay, e, nb), b)
  {
    if lay.chains[e] != [] {
      assert LinkAt(im, lay, e, |lay.chains[e]| - 1);
    }
    assert OwnedAt(im, lay, b);
    if b != nb && im.fat[b] != FREE {
      var o := lay.owner[b];
      assert lay.chains[o.0][o.1] == b;
    }
  }

  lemma ExtendCounted(im: Image, lay: Layout, e: nat, nb: nat)
    requires Sized(im, lay) && Linked(im, lay) && e < |lay.chains| && nb < |im.fat| && im.fat[nb] == FREE
    requires lay.chains[e] != [] ==> lay.chains[e][|lay.chains[e]| - 1] < |im.fat|
    ensures ChainTotal(ExtendLayout(lay, e, nb).chains) == ChainTotal(lay.chains) + 1
    ensures FreeCount(Extend(im, lay, e, nb).fat) == FreeCount(im.fat) - 1
  {
    ChainTotalUpdate(lay.chains, e, lay.chains[e] + [nb]);
    if lay.chains[e] != [] {
      var n := |lay.chains[e]| - 1;
      assert LinkAt(im, lay, e, n);
      FreeCountUpdate(im.fat, lay.chains[e][n], nb);
      FreeCountUpdate(im.fat[lay.chains[e][n] := nb], nb, LAST);
    } else {
      FreeCountUpdate(im.fat, nb, LAST);
    }
  }

  /** What the new empty block means for the contents. */
  lemma ExtendContent(im: Image, lay: Layout, e: nat, nb: nat, d: nat)
    requires Sized(im, lay) && Linked(im, lay) && e < |lay.chains| && nb < |im.fat| && im.fat[nb] == FREE
    requires d < |lay.chains| && InDisk(im.disk, lay.chains[d])
    ensures InDisk(im.disk[nb := ""], ExtendLayout(lay, e, nb).chains[d])
    ensures Content(im.disk[nb := ""], ExtendLayout(lay, e, nb).chains[d]) == Content(im.disk, lay.chains[d])
    ensures forall j :: 0 <= j < |lay.chains[d]| ==> im.disk[nb := ""][lay.chains[d][j]] == im.disk[lay.chains[d][j]]
  {
    forall j | 0 <= j < |lay.chains[d]|
      ensures lay.chains[d][j] != nb
    {
      FreeOffChain(im, lay, nb, d, j);
    }
    if d == e {
      ContentExtend(im.disk, lay.chains[e], nb);
    } else {
      ContentSame(im.disk, im.disk[nb := ""], lay.chains[d]);
    }
  }

  ghost predicate CleanDisk(disk: seq<string>, bytes: nat)
  {
    forall b :: 0 <= b < |disk| ==> |disk[b]| <= bytes && Clean(disk[b])
  }

  lemma CleanBlocks(im: Image, bytes: nat, nb: nat)
    requires nb < |im.disk| && CleanDisk(im.disk, bytes)
    ensures CleanDisk(im.disk[nb := ""], bytes)
  {
  }

  lemma GrowAt(im: Image, lay: Layout, bytes: nat, open: int, e: nat, nb: nat, d: nat)
    requires Sized(im, lay) && Linked(im, lay) && d < |im.entries| && FilledAt(im, lay, bytes, open, d)
    requires e < |im.entries| && im.entries[e].use == 1 && (open == -1 || open == e)
    requires nb < |im.fat| && im.fat[nb] == FREE
    requires lay.chains[e] != [] && lay.chains[e][|lay.chains[e]| - 1] < |im.fat|
    requires |im.disk[lay.chains[e][|lay.chains[e]| - 1]]| == bytes
    ensures var r, lay' := Extend(im, lay, e, nb), ExtendLayout(lay, e, nb);
            && Sized(r, lay') && FilledAt(r, lay', bytes, e, d) && EntryLinked(r, lay', d)
            && InDisk(im.disk, lay.chains[d]) && InDisk(r.disk, lay'.chains[d])
            && Content(r.disk, lay'.chains[d]) == Content(im.disk, lay.chains[d])
  {
    assert EntryLinked(im, lay, d);
    ExtendContent(im, lay, e, nb, d);
    hide Content;
  }

  lemma GrowInv(im: Image, lay: Layout, bytes: nat, open: int, e: nat, nb: nat)
    requires Inv(im, lay, bytes, open) && e < |im.entries| && im.entries[e].use == 1 && (open == -1 || open == e)
    requires nb < |im.fat| && im.fat[nb] == FREE
    requires lay.chains[e] != [] && lay.chains[e][|lay.chains[e]| - 1] < |im.fat|
    requires |im.disk[lay.chains[e][|lay.chains[e]| - 1]]| == bytes
    ensures Inv(Extend(im, lay, e, nb), ExtendLayout(lay, e, nb), bytes, e)
  {
    var r, lay' := Extend(im, lay, e, nb), ExtendLayout(lay, e, nb);
    hide LinkAt, OwnedAt, EntryLinked, FilledAt, Content, ChainTotal, FreeCount, Clean, InDisk;
    assert r.entries == im.entries && |r.fat| == |im.fat| && r.disk == im.disk[nb := ""];
    hide Extend, ExtendLayout;
    ExtendLinked(im, lay, e, nb);
    ExtendCounted(im, lay, e, nb);
    CleanBlocks(im, bytes, nb);
    forall d | 0 <= d < |im.entries|
      ensures FilledAt(r, lay', bytes, e, d) && EntryLinked(r, lay', d)
    {
      GrowAt(im, lay, bytes, open, e, nb, d);
    }
  }

  /** A full last block is followed by a free block: contents stay, one free block less. */
  lemma GrowKeeps(im: Image, lay: Layout, bytes: nat, open: int, e: nat, nb: nat)
    requires Inv(im, lay, bytes, open) && e < |im.entries| && im.entries[e].use == 1 && (open == -1 || open == e)
    requires nb < |im.fat| && im.fat[nb] == FREE
    requires lay.chains[e] != [] && lay.chains[e][|lay.chains[e]| - 1] < |im.fat|
    requires |im.disk[lay.chains[e][|lay.chains[e]| - 1]]| == bytes
    ensures var r, lay' := Extend(im, lay, e, nb), ExtendLayout(lay, e, nb);
            && Inv(r, lay', bytes, e)
            && FreeCount(r.fat) == FreeCount(im.fat) - 1
            && forall d :: 0 <= d < |im.entries| ==>
                 FileContent(r, lay', bytes, e, d) == FileContent(im, lay, bytes, open, d)
  {
    var r, lay' := Extend(im, lay, e, nb), ExtendLayout(lay, e, nb);
    GrowInv(im, lay, bytes, open, e, nb);
    ExtendCounted(im, lay, e, nb);
    forall d | 0 <= d < |im.entries|
      ensures FileContent(r, lay', bytes, e, d) == FileContent(im, lay, bytes, open, d)
    {
      assert FilledAt(im, lay, bytes, open, d);
      GrowAt(im, lay, bytes, open, e, nb, d);
    }
  }

  // ---------- a new file ----------

  function Install(im: Image, e: nat, nb: nat, name: string): (r: Image)
    requires e < |im.entries|
  {
    im.(entries := im.entries[e := Entry(name, nb, 0, 1)])
  }

  lemma CreateAt(im: Image, lay: Layout, bytes: nat, e: nat, nb: nat, name: string, d: nat)
    requires Sized(im, lay) && Linked(im, lay) && d < |im.entries| && FilledAt(im, lay, bytes, -1, d)
    requires e < |im.entries| && lay.chains[e] == []
    requires nb < |im.fat| && im.fat[nb] == FREE
    ensures var r, lay' := Install(Extend(im, lay, e, nb), e, nb, name), ExtendLayout(lay, e, nb);
            && Sized(r, lay') && FilledAt(r, lay', bytes, -1, d) && EntryLinked(r, lay', d)
            && InDisk(im.disk, lay.chains[d]) && InDisk(r.disk, lay'.chains[d])
            && Content(r.disk, lay'.chains[d]) == Content(im.disk, lay.chains[d])
            && (d == e ==> Content(r.disk, lay'.chains[d]) == "")
  {
    assert EntryLinked(im, lay, d);
    ExtendContent(im, lay, e, nb, d);
    if d == e {
      assert Content(im.disk, lay.chains[d]) == "";
    }
    hide Content;
  }

  lemma InstallLinked(x: Image, lay: Layout, e: nat, nb: nat, name: string)
    requires Sized(x, lay) && e < |x.entries|
    requires forall d, j :: 0 <= d < |lay.chains| && 0 <= j < |lay.chains[d]| ==> LinkAt(x, lay, d, j)
    requires forall b :: 0 <= b < |x.fat| ==> OwnedAt(x, lay, b)
    ensures var r := Install(x, e, nb, name);
            && Sized(r, lay)
            && (forall d, j :: 0 <= d < |lay.chains| && 0 <= j < |lay.chains[d]| ==> LinkAt(r, lay, d, j))
            && (forall b :: 0 <= b < |r.fat| ==> OwnedAt(r, lay, b))
  {
    var r := Install(x, e, nb, name);
    forall d, j | 0 <= d < |lay.chains| && 0 <= j < |lay.chains[d]|
      ensures LinkAt(r, lay, d, j)
    {
      assert LinkAt(x, lay, d, j);
    }
    forall b | 0 <= b < |r.fat|
      ensures OwnedAt(r, lay, b)
    {
      assert OwnedAt(x, lay, b);
    }
  }

  ghost predicate CanCreate(im: Image, lay: Layout, bytes: nat, e: nat, nb: nat, name: string)
  {
    && Inv(im, lay, bytes, -1) && e < |im.entries| && im.entries[e].use == 0
    && nb < |im.fat| && im.fat[nb] == FREE
    && forall d :: 0 <= d < |im.entries| && im.entries[d].use == 1 ==> im.entries[d].name != name
  }

  lemma CreateInv(im: Image, lay: Layout, bytes: nat, e: nat, nb: nat, name: string)
    requires CanCreate(im, lay, bytes, e, nb, name)
    ensures |lay.chains| == |im.entries| && |lay.owner| == |im.fat| == |im.disk| && lay.chains[e] == []
    ensures Inv(Install(Extend(im, lay, e, nb), e, nb, name), ExtendLayout(lay, e, nb), bytes, -1)
  {
    assert EntryLinked(im, lay, e);
    var x, lay' := Extend(im, lay, e, nb), ExtendLayout(lay, e, nb);
    var r := Install(x, e, nb, name);
    hide LinkAt, OwnedAt, EntryLinked, FilledAt, Content, ChainTotal, FreeCount, Clean, InDisk;
    assert x.entries == im.entries && |x.fat| == |im.fat| && x.disk == im.disk[nb := ""];
    hide Extend, ExtendLayout;
    ExtendLinked(im, lay, e, nb);
    InstallLinked(x, lay', e, nb, name);
    ExtendCounted(im, lay, e, nb);
    CleanBlocks(im, bytes, nb);
    forall d | 0 <= d < |im.entries|
      ensures FilledAt(r, lay', bytes, -1, d) && EntryLinked(r, lay', d)
    {
      CreateAt(im, lay, bytes, e, nb, name, d);
    }
  }

  /** An unused entry takes a free block and a new name: one empty file more, the others unchanged. */
  lemma CreateKeeps(im: Image, lay: Layout, bytes: nat, e: nat, nb: nat, name: string)
    requires CanCreate(im, lay, bytes, e, nb, name)
    ensures |lay.chains| == |im.entries| && |lay.owner| == |im.fat| == |im.disk| && lay.chains[e] == []
    ensures var r, lay' := Install(Extend(im, lay, e, nb), e, nb, name), ExtendLayout(lay, e, nb);
            && Inv(r, lay', bytes, -1)
            && FileContent(r, lay', bytes, -1, e) == ""
            && forall d :: 0 <= d < |im.entries| && d != e ==>
                 FileContent(r, lay', bytes, -1, d) == FileContent(im, lay, bytes, -1, d)
  {
    CreateInv(im, lay, bytes, e, nb, name);
    var r, lay' := Install(Extend(im, lay, e, nb), e, nb, name), ExtendLayout(lay, e, nb);
    forall d | 0 <= d < |im.entries|
      ensures FileContent(r, lay', bytes, -1, d) == if d == e then "" else FileContent(im, lay, bytes, -1, d)
    {
      assert FilledAt(im, lay, bytes, -1, d);
      CreateAt(im, lay, bytes, e, nb, name, d);
    }
  }

  // ---------- deleting ----------

  function FreeBlocks(fat: seq<int>, blocks: seq<nat>): (r: seq<int>)
    ensures |r| == |fat| && forall b :: 0 <= b < |fat| ==> r[b] == if b in blocks then FREE else fat[b]
  {
    seq(|fat|, b requires 0 <= b < |fat| => if b in blocks then FREE else fat[b])
  }

  function Remove(im: Image, chain: seq<nat>, e: nat): (r: Image)
    requires e < |im.entries|
  {
    im.(entries := im.entries[e := im.entries[e].(use := 0)], fat := FreeBlocks(im.fat, chain))
  }

  ghost function RemoveLayout(lay: Layout, e: nat): (r: Layout)
    requires e < |lay.chains|
  {
    lay.(chains := lay.chains[e := []])
  }

  lemma {:induction false} FreeBlocksCount(fat: seq<int>, blocks: seq<nat>)
    requires forall j :: 0 <= j < |blocks| ==> blocks[j] < |fat| && fat[blocks[j]] != FREE
    requires forall i, j :: 0 <= i < j < |blocks| ==> blocks[i] != blocks[j]
    ensures FreeCount(FreeBlocks(fat, blocks)) == FreeCount(fat) + |blocks|
    decreases |blocks|
  {
    if blocks == [] {
      assert FreeBlocks(fat, blocks) == fat;
    } else {
      var n := |blocks| - 1;
      FreeBlocksCount(fat, blocks[..n]);
      assert blocks == blocks[..n] + [blocks[n]];
      assert FreeBlocks(fat, blocks) == FreeBlocks(fat, blocks[..n])[blocks[n] := FREE];
      FreeCountUpdate(FreeBlocks(fat, blocks[..n]), blocks[n], FREE);
    }
  }

  lemma RemoveLinkAt(im: Image, lay: Layout, e: nat, d: nat, j: nat)
    requires Sized(im, lay) && Linked(im, lay) && e < |lay.chains| && d < |lay.chains| && d != e && j < |lay.chains[d]|
    ensures Sized(Remove(im, lay.chains[e], e), RemoveLayout(lay, e))
    ensures LinkAt(Remove(im, lay.chains[e], e), RemoveLayout(lay, e), d, j)
  {
    assert LinkAt(im, lay, d, j);
    if lay.chains[d][j] in lay.chains[e] {
      var i :| 0 <= i < |lay.chains[e]| && lay.chains[e][i] == lay.chains[d][j];
      ChainsDisjoint(im, lay, d, j, e, i);
    }
  }

  lemma RemoveOwned(im: Image, lay: Layout, e: nat, b: nat)
    requires Sized(im, lay) && Linked(im, lay) && e < |lay.chains| && b < |im.fat|
    requires Sized(Remove(im, lay.chains[e], e), RemoveLayout(lay, e))
    ensures OwnedAt(Remove(im, lay.chains[e], e), RemoveLayout(lay, e), b)
  {
    assert OwnedAt(im, lay, b);
    if im.fat[b] != FREE && b !in lay.chains[e] {
      var o := lay.owner[b];
      assert lay.chains[o.0][o.1] == b;
    }
  }

  lemma ChainDistinct(im: Image, lay: Layout, e: nat)
    requires Sized(im, lay) && Linked(im, lay) && e < |lay.chains|
    ensures forall j :: 0 <= j < |lay.chains[e]| ==> lay.chains[e][j] < |im.fat| && im.fat[lay.chains[e][j]] != FREE
    ensures forall i, j :: 0 <= i < j < |lay.chains[e]| ==> lay.chains[e][i] != lay.chains[e][j]
  {
    forall j | 0 <= j < |lay.chains[e]|
      ensures lay.chains[e][j] < |im.fat| && im.fat[lay.chains[e][j]] != FREE && lay.owner[lay.chains[e][j]] == (e, j)
    {
      assert LinkAt(im, lay, e, j);
    }
  }

  lemma RemoveAt(im: Image, lay: Layout, bytes: nat, e: nat, d: nat)
    requires Sized(im, lay) && Linked(im, lay) && d < |im.entries| && FilledAt(im, lay, bytes, -1, d)
    requires e < |im.entries|
    ensures var r, lay' := Remove(im, lay.chains[e], e), RemoveLayout(lay, e);
            && Sized(r, lay') && FilledAt(r, lay', bytes, -1, d) && EntryLinked(r, lay', d)
            && InDisk(im.disk, lay.chains[d])
  {
    assert EntryLinked(im, lay, d);
  }

  lemma RemoveLinked(im: Image, lay: Layout, e: nat)
    requires Sized(im, lay) && Linked(im, lay) && e < |im.entries|
    ensures var r, lay' := Remove(im, lay.chains[e], e), RemoveLayout(lay, e);
            && Sized(r, lay')
            && (forall d, j :: 0 <= d < |lay'.chains| && 0 <= j < |lay'.chains[d]| ==> LinkAt(r, lay', d, j))
            && (forall b :: 0 <= b < |r.fat| ==> OwnedAt(r, lay', b))
  {
    var r, lay' := Remove(im, lay.chains[e], e), RemoveLayout(lay, e);
    forall d, j | 0 <= d < |lay'.chains| && 0 <= j < |lay'.chains[d]|
      ensures LinkAt(r, lay', d, j)
    {
      RemoveLinkAt(im, lay, e, d, j);
    }
    forall b | 0 <= b < |r.fat|
      ensures OwnedAt(r, lay', b)
    {
      RemoveOwned(im, lay, e, b);
    }
  }

  /** Freeing a whole chain and clearing the use bit removes one file and leaves the others alone. */
  lemma RemoveKeeps(im: Image, lay: Layout, bytes: nat, e: nat)
    requires Inv(im, lay, bytes, -1) && e < |im.entries| && im.entries[e].use == 1
    ensures e < |lay.chains|
    ensures var r, lay' := Remove(im, lay.chains[e], e), RemoveLayout(lay, e);
            && Inv(r, lay', bytes, -1)
            && forall d :: 0 <= d < |im.entries| && d != e ==>
                 FileContent(r, lay', bytes, -1, d) == FileContent(im, lay, bytes, -1, d)
  {
    var r, lay' := Remove(im, lay.chains[e], e), RemoveLayout(lay, e);
    hide LinkAt, OwnedAt, EntryLinked, FilledAt, Content, ChainTotal, FreeCount, Clean;
    RemoveLinked(im, lay, e);
    ChainDistinct(im, lay, e);
    FreeBlocksCount(im.fat, lay.chains[e]);
    ChainTotalUpdate(lay.chains, e, []);
    forall d | 0 <= d < |im.entries|
      ensures FilledAt(r, lay', bytes, -1, d) && EntryLinked(r, lay', d)
      ensures InDisk(im.disk, lay.chains[d])
    {
      RemoveAt(im, lay, bytes, e, d);
    }
    assert Named(r);
  }
}
