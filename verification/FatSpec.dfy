/**
 What a user sees: a bounded map from file names to contents. The bounds (number of files, number of
 blocks) depend on the map alone.
 */
module FatSpec {
  import opened Basics
  import opened FatLayout
  import opened Products
  import opened FatOps

  datatype Geometry = Geometry(entries: nat, blocks: nat, bytes: nat)

  datatype CreateResult = AlreadyExists | NoFreeEntry | NoFreeBlock | Created
  datatype WriteResult = WriteMissing | PartialWrite | Written

  // ---------- the specification ----------

  /** The blocks a file of `n` bytes occupies: at least one. */
  function NumBlocks(n: nat, bytes: nat): (k: nat)
    requires bytes >= 1
    ensures k >= 1
  {
    if n <= bytes then 1 else 1 + NumBlocks(n - bytes, bytes)
  }

  /** The blocks all files together occupy. */
  ghost function UsedBlocks(m: map<string, string>, bytes: nat): (k: nat)
    requires bytes >= 1
  {
    if m == map[] then 0 else
      var name :| name in m;
      NumBlocks(|m[name]|, bytes) + UsedBlocks(m - {name}, bytes)
  }

  /** How many more bytes a file can take: the rest of its last block and all free blocks. */
  ghost function Room(geo: Geometry, m: map<string, string>, name: string): (n: int)
    requires geo.bytes >= 1 && name in m
  {
    Times(NumBlocks(|m[name]|, geo.bytes), geo.bytes) - |m[name]|
    + Times(geo.blocks - UsedBlocks(m, geo.bytes), geo.bytes)
  }

  /** Line breaks are stored as blanks. */
  function Sanitize(s: string): (r: string)
    ensures |r| == |s| && forall i :: 0 <= i < |s| ==> r[i] == if s[i] == '\n' then ' ' else s[i]
  {
    seq(|s|, i requires 0 <= i < |s| => if s[i] == '\n' then ' ' else s[i])
  }

  ghost function SpecCreate(geo: Geometry, m: map<string, string>, name: string)
    : (r: (map<string, string>, CreateResult))
    requires geo.bytes >= 1
  {
    if name in m then (m, AlreadyExists)
    else if |m| >= geo.entries then (m, NoFreeEntry)
    else if UsedBlocks(m, geo.bytes) >= geo.blocks then (m, NoFreeBlock)
    else (m[name := ""], Created)
  }

  /** The longest prefix that fits is appended. */
  ghost function SpecWrite(geo: Geometry, m: map<string, string>, name: string, content: string)
    : (r: (map<string, string>, WriteResult))
    requires geo.bytes >= 1
  {
    if name !in m then (m, WriteMissing)
    else
      var n := Max(0, Min(|content|, Room(geo, m, name)));
      (m[name := m[name] + Sanitize(content[..n])], if n < |content| then PartialWrite else Written)
  }

  function SpecRead(m: map<string, string>, name: string): (r: Option<string>)
  {
    if name in m then Some(m[name]) else None
  }

  function SpecDelete(m: map<string, string>, name: string): (r: (map<string, string>, bool))
  {
    (m - {name}, name in m)
  }

  /** A listing names every file once, with the length of its content. */
  ghost predicate Lists(m: map<string, string>, listing: seq<(string, int)>)
  {
    && |listing| == |m|
    && (forall i :: 0 <= i < |listing| ==> listing[i].0 in m && listing[i].1 == |m[listing[i].0]|)
    && (forall i, j :: 0 <= i < j < |listing| ==> listing[i].0 != listing[j].0)
  }

  // ---------- what the saved directory needs ----------

  /** White space as the C library's isspace defines it. */
  predicate IsSpace(c: char)
  {
    c == ' ' || 9 <= c as int <= 13
  }

  /** What the scanner takes for one word. */
  predicate OneWord(name: string)
  {
    name != "" && forall i :: 0 <= i < |name| ==> !IsSpace(name[i])
  }

  /** A name that is read back as one word. */
  predicate Word(name: string)
  {
    name != "" && forall i :: 0 <= i < |name| ==> !IsSpace(name[i]) && name[i] != '\0'
  }

  const BLANK := Entry("", 0, 0, 0)

  /** Named entries form a prefix of the table; the entries after it were never used and are all zero. */
  ghost predicate Saveable(es: seq<Entry>)
  {
    && (forall e :: 0 <= e < |es| ==> Word(es[e].name) || es[e] == BLANK)
    && (forall d, e :: 0 <= d < e < |es| && es[e].name != "" ==> es[d].name != "")
  }

  lemma NonemptyWord(w: string)
    requires Word(w)
    ensures w != ""
  {
  }

  /** A file in the first free entry extends the named prefix by at most one. */
  lemma InsertSaveable(es: seq<Entry>, e: nat, b: nat, name: string)
    requires Saveable(es) && Word(name) && e < |es| && forall d :: 0 <= d < e ==> es[d].use != 0
    ensures Saveable(es[e := Entry(name, b, 0, 1)])
  {
    NonemptyWord(name);
    hide Word;
    var r := es[e := Entry(name, b, 0, 1)];
    forall x, y | 0 <= x < y < |r| && r[y].name != ""
      ensures r[x].name != ""
    {
      if x < e {
        UsedHasName(es[x]);
      }
    }
  }

  lemma UsedHasName(en: Entry)
    requires (Word(en.name) || en == BLANK) && en.use != 0
    ensures en.name != ""
  {
  }

  // ---------- the map a directory stands for ----------

  function Files(es: seq<Entry>, cs: seq<string>): (m: map<string, string>)
    requires |es| == |cs|
  {
    if es == [] then map[] else
      var n := |es| - 1;
      var m := Files(es[..n], cs[..n]);
      if es[n].use == 1 then m[es[n].name := cs[n]] else m
  }

  ghost predicate NamesDiffer(es: seq<Entry>)
  {
    forall d, e :: 0 <= d < e < |es| && es[d].use == 1 && es[e].use == 1 ==> es[d].name != es[e].name
  }

  lemma {:induction false} FilesHas(es: seq<Entry>, cs: seq<string>, e: nat)
    requires |es| == |cs| && NamesDiffer(es) && e < |es| && es[e].use == 1
    ensures es[e].name in Files(es, cs) && Files(es, cs)[es[e].name] == cs[e]
  {
    var n := |es| - 1;
    if e < n {
      FilesHas(es[..n], cs[..n], e);
    }
  }

  lemma {:induction false} FilesFrom(es: seq<Entry>, cs: seq<string>, name: string) returns (e: nat)
    requires |es| == |cs| && name in Files(es, cs)
    ensures e < |es| && es[e].use == 1 && es[e].name == name
  {
    var n := |es| - 1;
    if es[n].use == 1 && es[n].name == name {
      e := n;
    } else {
      e := FilesFrom(es[..n], cs[..n], name);
    }
  }

  /** Two directories that agree on every file but `name` differ as maps only there. */
  lemma FilesAgree(es: seq<Entry>, cs: seq<string>, es': seq<Entry>, cs': seq<string>, e: nat, name: string)
    requires |es| == |cs| == |es'| == |cs'| && NamesDiffer(es) && NamesDiffer(es') && e < |es|
    requires forall d :: 0 <= d < |es| && d != e ==>
               es'[d].use == es[d].use && es'[d].name == es[d].name && cs'[d] == cs[d]
    requires es[e].use == 1 ==> es[e].name == name
    requires es'[e].use == 1 ==> es'[e].name == name
    ensures forall x :: x != name ==> (x in Files(es', cs') <==> x in Files(es, cs))
    ensures forall x :: x != name && x in Files(es, cs) ==> Files(es', cs')[x] == Files(es, cs)[x]
  {
    forall x | x != name && x in Files(es, cs)
      ensures x in Files(es', cs') && Files(es', cs')[x] == Files(es, cs)[x]
    {
      var d := FilesFrom(es, cs, x);
      FilesHas(es, cs, d);
      FilesHas(es', cs', d);
    }
    forall x | x != name && x in Files(es', cs')
      ensures x in Files(es, cs)
    {
      var d := FilesFrom(es', cs', x);
      FilesHas(es, cs, d);
    }
  }

  /** Entry `e` is, or becomes, the file `name` with content `cs'[e]`. */
  lemma FilesPut(es: seq<Entry>, cs: seq<string>, es': seq<Entry>, cs': seq<string>, e: nat, name: string)
    requires |es| == |cs| == |es'| == |cs'| && NamesDiffer(es) && NamesDiffer(es') && e < |es|
    requires forall d :: 0 <= d < |es| && d != e ==>
               es'[d].use == es[d].use && es'[d].name == es[d].name && cs'[d] == cs[d]
    requires es[e].use == 1 ==> es[e].name == name
    requires es'[e].use == 1 && es'[e].name == name
    ensures Files(es', cs') == Files(es, cs)[name := cs'[e]]
  {
    FilesAgree(es, cs, es', cs', e, name);
    FilesHas(es', cs', e);
    hide Files;
  }

  /** Entry `e`, the file `name`, is given up. */
  lemma FilesDrop(es: seq<Entry>, cs: seq<string>, es': seq<Entry>, cs': seq<string>, e: nat, name: string)
    requires |es| == |cs| == |es'| == |cs'| && NamesDiffer(es) && NamesDiffer(es') && e < |es|
    requires forall d :: 0 <= d < |es| && d != e ==>
               es'[d].use == es[d].use && es'[d].name == es[d].name && cs'[d] == cs[d]
    requires es[e].use == 1 && es[e].name == name && es'[e].use != 1
    ensures Files(es', cs') == Files(es, cs) - {name}
  {
    FilesAgree(es, cs, es', cs', e, name);
    if name in Files(es', cs') {
      var d := FilesFrom(es', cs', name);
    }
    hide Files;
  }

  // ---------- counting ----------

  lemma {:induction false} UsedBlocksRemove(m: map<string, string>, bytes: nat, x: string)
    requires bytes >= 1 && x in m
    ensures UsedBlocks(m, bytes) == NumBlocks(|m[x]|, bytes) + UsedBlocks(m - {x}, bytes)
    decreases |m|
  {
    var name :| name in m && UsedBlocks(m, bytes) == NumBlocks(|m[name]|, bytes) + UsedBlocks(m - {name}, bytes);
    if name != x {
      UsedBlocksRemove(m - {name}, bytes, x);
      UsedBlocksRemove(m - {x}, bytes, name);
      assert m - {name} - {x} == m - {x} - {name};
    }
  }

  lemma UsedBlocksInsert(m: map<string, string>, bytes: nat, x: string, v: string)
    requires bytes >= 1 && x !in m
    ensures UsedBlocks(m[x := v], bytes) == NumBlocks(|v|, bytes) + UsedBlocks(m, bytes)
  {
    UsedBlocksRemove(m[x := v], bytes, x);
    assert m[x := v] - {x} == m;
  }

  function InUse(es: seq<Entry>): (n: nat)
  {
    if es == [] then 0 else InUse(es[..|es| - 1]) + if es[|es| - 1].use == 1 then 1 else 0
  }

  lemma {:induction false} FilesCount(es: seq<Entry>, cs: seq<string>)
    requires |es| == |cs| && NamesDiffer(es)
    ensures |Files(es, cs)| == InUse(es)
  {
    if es != [] {
      var n := |es| - 1;
      FilesCount(es[..n], cs[..n]);
      if es[n].use == 1 && es[n].name in Files(es[..n], cs[..n]) {
        var d := FilesFrom(es[..n], cs[..n], es[n].name);
      }
    }
  }

  /** When every file occupies the blocks its length calls for, the map tells how many blocks are in use. */
  lemma {:induction false} FilesBlocks(es: seq<Entry>, cs: seq<string>, chains: seq<seq<nat>>, bytes: nat)
    requires |es| == |cs| == |chains| && NamesDiffer(es) && bytes >= 1
    requires forall e :: 0 <= e < |es| ==> |chains[e]| == if es[e].use == 1 then NumBlocks(|cs[e]|, bytes) else 0
    ensures UsedBlocks(Files(es, cs), bytes) == ChainTotal(chains)
  {
    if es != [] {
      var n := |es| - 1;
      FilesBlocks(es[..n], cs[..n], chains[..n], bytes);
      var m := Files(es[..n], cs[..n]);
      if es[n].use == 1 {
        if es[n].name in m {
          var d := FilesFrom(es[..n], cs[..n], es[n].name);
        }
        UsedBlocksInsert(m, bytes, es[n].name, cs[n]);
      }
    }
  }

  lemma {:induction false} NotAllInUse(es: seq<Entry>, e: nat)
    requires e < |es| && es[e].use != 1
    ensures InUse(es) < |es|
  {
    InUseBound(es[..|es| - 1]);
    if e < |es| - 1 {
      NotAllInUse(es[..|es| - 1], e);
    }
  }

  lemma {:induction false} InUseBound(es: seq<Entry>)
    ensures InUse(es) <= |es|
  {
    if es != [] {
      InUseBound(es[..|es| - 1]);
    }
  }

  lemma {:induction false} AllInUse(es: seq<Entry>)
    requires forall e :: 0 <= e < |es| ==> es[e].use == 1
    ensures InUse(es) == |es|
  {
    if es != [] {
      AllInUse(es[..|es| - 1]);
    }
  }

  // ---------- sizes of chains ----------

  /** `n - 1` full blocks and a last one, empty only if it is alone, are what `NumBlocks` counts. */
  lemma {:induction false} NumBlocksOf(n: nat, last: nat, bytes: nat)
    requires bytes >= 1 && n >= 1 && last <= bytes && (n > 1 ==> last > 0)
    ensures Times(n - 1, bytes) + last >= 0
    ensures NumBlocks(Times(n - 1, bytes) + last, bytes) == n
  {
    hide Times;
    Distribute(n - 1, 0, bytes);
    if n > 1 {
      Distribute(n - 2, 1, bytes);
      NumBlocksOf(n - 1, last, bytes);
      Distribute(n - 2, 0, bytes);
    }
  }

  lemma {:induction false} FullLength(disk: seq<string>, chain: seq<nat>, bytes: nat)
    requires InDisk(disk, chain) && forall j :: 0 <= j < |chain| ==> |disk[chain[j]]| == bytes
    ensures |Content(disk, chain)| == Times(|chain|, bytes)
  {
    if chain == [] {
      Distribute(0, 0, bytes);
    } else {
      var n := |chain| - 1;
      FullLength(disk, chain[..n], bytes);
      Distribute(n, 1, bytes);
    }
  }

  /** A chain whose last block has `b` bytes holds a full block for every other one. */
  lemma ChainLength(disk: seq<string>, chain: seq<nat>, bytes: nat)
    requires InDisk(disk, chain) && chain != [] && bytes >= 1
    requires forall j :: 0 <= j < |chain| - 1 ==> |disk[chain[j]]| == bytes
    requires |disk[chain[|chain| - 1]]| <= bytes
    ensures |Content(disk, chain)| == Times(|chain| - 1, bytes) + |disk[chain[|chain| - 1]]|
    ensures |chain| > 1 ==> |disk[chain[|chain| - 1]]| > 0 ==> NumBlocks(|Content(disk, chain)|, bytes) == |chain|
    ensures |chain| == 1 ==> NumBlocks(|Content(disk, chain)|, bytes) == 1
  {
    var n := |chain| - 1;
    FullLength(disk, chain[..n], bytes);
    var last := |disk[chain[n]]|;
    if n == 0 || last > 0 {
      NumBlocksOf(n + 1, last, bytes);
    }
    hide Times;
  }

  // ---------- the file system as a map ----------

  ghost function Contents(im: Image, lay: Layout, bytes: nat, open: int): (cs: seq<string>)
    requires Inv(im, lay, bytes, open)
    ensures |cs| == |im.entries|
    ensures forall e :: 0 <= e < |cs| ==> cs[e] == FileContent(im, lay, bytes, open, e)
  {
    seq(|im.entries|, e requires 0 <= e < |im.entries| => FileContent(im, lay, bytes, open, e))
  }

  ghost function Directory(im: Image, lay: Layout, bytes: nat, open: int): (m: map<string, string>)
    requires Inv(im, lay, bytes, open)
  {
    Files(im.entries, Contents(im, lay, bytes, open))
  }

  lemma ChainIsNumBlocks(im: Image, lay: Layout, bytes: nat, e: nat)
    requires Inv(im, lay, bytes, -1) && e < |im.entries|
    ensures |lay.chains| == |im.entries|
    ensures |lay.chains[e]|
            == if im.entries[e].use == 1 then NumBlocks(|FileContent(im, lay, bytes, -1, e)|, bytes) else 0
  {
    assert EntryLinked(im, lay, e);
    assert FilledAt(im, lay, bytes, -1, e);
    if im.entries[e].use == 1 {
      ChainLength(im.disk, lay.chains[e], bytes);
    }
  }

  /** The free blocks are exactly those the map leaves. */
  lemma FreeIsRest(im: Image, lay: Layout, bytes: nat)
    requires Inv(im, lay, bytes, -1)
    ensures FreeCount(im.fat) == |im.fat| - UsedBlocks(Directory(im, lay, bytes, -1), bytes)
    ensures |Directory(im, lay, bytes, -1)| == InUse(im.entries)
  {
    var cs := Contents(im, lay, bytes, -1);
    forall e | 0 <= e < |im.entries|
      ensures |lay.chains| == |im.entries|
      ensures |lay.chains[e]| == if im.entries[e].use == 1 then NumBlocks(|cs[e]|, bytes) else 0
    {
      ChainIsNumBlocks(im, lay, bytes, e);
    }
    FilesBlocks(im.entries, cs, lay.chains, bytes);
    FilesCount(im.entries, cs);
  }

  /** How much the file of entry `e` can still take, by its last block and the free count. */
  lemma RoomIsRoom(im: Image, lay: Layout, geo: Geometry, e: nat)
    requires Inv(im, lay, geo.bytes, -1) && geo.blocks == |im.fat| && e < |im.entries| && im.entries[e].use == 1
    ensures lay.chains[e] != [] && lay.chains[e][|lay.chains[e]| - 1] < |im.disk|
    ensures var m := Directory(im, lay, geo.bytes, -1);
            && im.entries[e].name in m && m[im.entries[e].name] == FileContent(im, lay, geo.bytes, -1, e)
            && Room(geo, m, im.entries[e].name)
               == geo.bytes - |im.disk[lay.chains[e][|lay.chains[e]| - 1]]| + Times(FreeCount(im.fat), geo.bytes)
  {
    ChainLast(im, lay, geo.bytes, -1, e);
    FilesHas(im.entries, Contents(im, lay, geo.bytes, -1), e);
    FreeIsRest(im, lay, geo.bytes);
    ChainIsNumBlocks(im, lay, geo.bytes, e);
    assert FilledAt(im, lay, geo.bytes, -1, e);
    ChainLength(im.disk, lay.chains[e], geo.bytes);
    Distribute(|lay.chains[e]| - 1, 1, geo.bytes);
    hide Times;
  }

  // ---------- what the room of a file means ----------

  lemma {:induction false} NumBlocksAtMost(n: nat, q: nat, bytes: nat)
    requires bytes >= 1 && q >= 1
    ensures NumBlocks(n, bytes) <= q <==> n <= Times(q, bytes)
    decreases n
  {
    Distribute(q - 1, 1, bytes);
    Distribute(q - 1, 0, bytes);
    if n > bytes && q > 1 {
      NumBlocksAtMost(n - bytes, q - 1, bytes);
    }
    if q == 1 {
      Distribute(0, 0, bytes);
    }
    hide Times;
  }

  /** A file can grow by `more` bytes exactly when the blocks of all files, this one grown, fit the disk. */
  lemma RoomIsWhatFits(geo: Geometry, m: map<string, string>, name: string, more: string)
    requires geo.bytes >= 1 && name in m && UsedBlocks(m, geo.bytes) <= geo.blocks
    ensures |more| <= Room(geo, m, name) <==> UsedBlocks(m[name := m[name] + more], geo.bytes) <= geo.blocks
  {
    var bytes := geo.bytes;
    var grown := m[name] + more;
    UsedBlocksRemove(m, bytes, name);
    UsedBlocksRemove(m[name := grown], bytes, name);
    assert m[name := grown] - {name} == m - {name};
    var q := geo.blocks - UsedBlocks(m - {name}, bytes);
    NumBlocksAtMost(|grown|, q, bytes);
    Distribute(NumBlocks(|m[name]|, bytes), geo.blocks - UsedBlocks(m, bytes), bytes);
    hide Times, NumBlocks, UsedBlocks;
  }
}
