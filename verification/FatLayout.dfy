/**
 The in-memory file system as a value: directory entries, the FAT and the disk blocks, and the invariant
 that ties the block chains to the files. `Layout` names the chain of each entry and the owner of each block.
 */
module FatLayout {

  const FREE := -2
  const LAST := -1

  datatype Entry = Entry(name: string, start: int, size: int, use: int)

  datatype Image = Image(entries: seq<Entry>, fat: seq<int>, disk: seq<string>)

  datatype Layout = Layout(chains: seq<seq<nat>>, owner: seq<(nat, nat)>)

  // ---------- chains ----------

  ghost predicate Sized(im: Image, lay: Layout)
  {
    |lay.chains| == |im.entries| && |lay.owner| == |im.fat| == |im.disk|
  }

  /** Block `j` of the chain of entry `e` points to the next one, and knows whose it is. */
  ghost predicate LinkAt(im: Image, lay: Layout, e: nat, j: nat)
    requires Sized(im, lay) && e < |lay.chains| && j < |lay.chains[e]|
  {
    var b := lay.chains[e][j];
    && b < |im.fat|
    && im.fat[b] == (if j + 1 < |lay.chains[e]| then lay.chains[e][j + 1] as int else LAST)
    && lay.owner[b] == (e, j)
  }

  /** A block that is not free lies on the chain of its owner. */
  ghost predicate OwnedAt(im: Image, lay: Layout, b: nat)
    requires Sized(im, lay) && b < |im.fat|
  {
    im.fat[b] != FREE ==>
      var (e, j) := lay.owner[b];
      e < |lay.chains| && j < |lay.chains[e]| && lay.chains[e][j] == b
  }

  ghost predicate EntryLinked(im: Image, lay: Layout, e: nat)
    requires Sized(im, lay) && e < |im.entries|
  {
    && (im.entries[e].use == 0 || im.entries[e].use == 1)
    && (im.entries[e].use == 1 <==> lay.chains[e] != [])
    && (im.entries[e].use == 1 ==> im.entries[e].start == lay.chains[e][0])
  }

  /**
   Chains are acyclic, pairwise disjoint and end in LAST, because every block on a chain has one owner;
   a block is FREE exactly when it is on no chain.
   */
  ghost predicate Linked(im: Image, lay: Layout)
    requires Sized(im, lay)
  {
    && (forall e, j :: 0 <= e < |lay.chains| && 0 <= j < |lay.chains[e]| ==> LinkAt(im, lay, e, j))
    && (forall b :: 0 <= b < |im.fat| ==> OwnedAt(im, lay, b))
    && (forall e :: 0 <= e < |im.entries| ==> EntryLinked(im, lay, e))
  }

  /** The bytes of a chain of blocks. */
  function Content(disk: seq<string>, chain: seq<nat>): (s: string)
    requires forall j :: 0 <= j < |chain| ==> chain[j] < |disk|
  {
    if chain == [] then "" else
      Content(disk, chain[..|chain| - 1]) + disk[chain[|chain| - 1]]
  }

  ghost predicate InDisk(disk: seq<string>, chain: seq<nat>)
  {
    forall j :: 0 <= j < |chain| ==> chain[j] < |disk|
  }

  /** All blocks but the last are full; the last is not empty unless it is the only one or still `open`. */
  ghost predicate FilledAt(im: Image, lay: Layout, bytes: nat, open: int, e: nat)
    requires Sized(im, lay) && e < |im.entries|
  {
    var chain := lay.chains[e];
    && InDisk(im.disk, chain)
    && (forall j :: 0 <= j < |chain| - 1 ==> |im.disk[chain[j]]| == bytes)
    && (|chain| > 1 && e != open ==> |im.disk[chain[|chain| - 1]]| > 0)
    && (chain != [] ==> im.entries[e].size == |Content(im.disk, chain)|)
  }

  /** C strings without line breaks. */
  ghost predicate Clean(s: string)
  {
    forall i :: 0 <= i < |s| ==> s[i] != '\n' && s[i] != '\0'
  }

  ghost predicate Filled(im: Image, lay: Layout, bytes: nat, open: int)
    requires Sized(im, lay)
  {
    && (forall b :: 0 <= b < |im.disk| ==> |im.disk[b]| <= bytes && Clean(im.disk[b]))
    && (forall e :: 0 <= e < |im.entries| ==> FilledAt(im, lay, bytes, open, e))
  }

  /** No two files in use have the same name. */
  ghost predicate Named(im: Image)
  {
    forall d, e :: 0 <= d < e < |im.entries| && im.entries[d].use == 1 && im.entries[e].use == 1 ==>
      im.entries[d].name != im.entries[e].name
  }

  function FreeCount(fat: seq<int>): (n: nat)
  {
    if fat == [] then 0 else FreeCount(fat[..|fat| - 1]) + if fat[|fat| - 1] == FREE then 1 else 0
  }

  ghost function ChainTotal(chains: seq<seq<nat>>): (n: nat)
  {
    if chains == [] then 0 else ChainTotal(chains[..|chains| - 1]) + |chains[|chains| - 1]|
  }

  ghost predicate Inv(im: Image, lay: Layout, bytes: nat, open: int)
  {
    && bytes >= 1 && Sized(im, lay) && Linked(im, lay) && Filled(im, lay, bytes, open) && Named(im)
    && ChainTotal(lay.chains) + FreeCount(im.fat) == |im.fat|
  }

  // ---------- counting ----------

  lemma {:induction false} FreeCountUpdate(fat: seq<int>, b: nat, v: int)
    requires b < |fat|
    ensures FreeCount(fat[b := v]) == FreeCount(fat) - (if fat[b] == FREE then 1 else 0) + (if v == FREE then 1 else 0)
  {
    var n := |fat| - 1;
    if b == n {
      assert fat[b := v][..n] == fat[..n];
    } else {
      assert fat[b := v][..n] == fat[..n][b := v];
      FreeCountUpdate(fat[..n], b, v);
    }
  }

  lemma {:induction false} ChainTotalUpdate(chains: seq<seq<nat>>, e: nat, c: seq<nat>)
    requires e < |chains|
    ensures ChainTotal(chains[e := c]) == ChainTotal(chains) - |chains[e]| + |c|
  {
    var n := |chains| - 1;
    if e == n {
      assert chains[e := c][..n] == chains[..n];
    } else {
      assert chains[e := c][..n] == chains[..n][e := c];
      ChainTotalUpdate(chains[..n], e, c);
    }
  }

  lemma {:induction false} NoneFree(fat: seq<int>)
    requires forall b :: 0 <= b < |fat| ==> fat[b] != FREE
    ensures FreeCount(fat) == 0
  {
    if fat != [] {
      NoneFree(fat[..|fat| - 1]);
    }
  }

  lemma {:induction false} SomeFree(fat: seq<int>, b: nat)
    requires b < |fat| && fat[b] == FREE
    ensures FreeCount(fat) >= 1
  {
    if b < |fat| - 1 {
      SomeFree(fat[..|fat| - 1], b);
    }
  }

  // ---------- contents ----------

  /** Blocks outside the chain do not matter. */
  lemma {:induction false} ContentSame(disk: seq<string>, disk': seq<string>, chain: seq<nat>)
    requires InDisk(disk, chain) && InDisk(disk', chain)
    requires forall j :: 0 <= j < |chain| ==> disk'[chain[j]] == disk[chain[j]]
    ensures Content(disk', chain) == Content(disk, chain)
  {
    if chain != [] {
      ContentSame(disk, disk', chain[..|chain| - 1]);
    }
  }

  /** What is appended to the last block is appended to the content. */
  lemma ContentAppend(disk: seq<string>, chain: seq<nat>, c: char)
    requires InDisk(disk, chain) && chain != []
    requires forall j :: 0 <= j < |chain| - 1 ==> chain[j] != chain[|chain| - 1]
    ensures var b := chain[|chain| - 1];
            Content(disk[b := disk[b] + [c]], chain) == Content(disk, chain) + [c]
  {
    var n := |chain| - 1;
    var b := chain[n];
    ContentSame(disk, disk[b := disk[b] + [c]], chain[..n]);
  }

  /** A new empty block at the end does not change the content. */
  lemma ContentExtend(disk: seq<string>, chain: seq<nat>, b: nat)
    requires InDisk(disk, chain) && b < |disk| && b !in chain
    ensures Content(disk[b := ""], chain + [b]) == Content(disk, chain)
  {
    assert (chain + [b])[..|chain|] == chain;
    ContentSame(disk, disk[b := ""], chain);
  }
}
