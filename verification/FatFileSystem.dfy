/**
 The file operations on the in-memory tables. Each is proved to do to the map of files what its
 specification says, to report the same outcome, and to keep the chain invariant.
 */
module FatFileSystem {
  import opened Basics
  import opened FatLayout
  import opened FatOps
  import opened FatSpec
  import opened FatPlaces
  import opened FatAppend
  import opened FatStore
  import opened FatText
  import opened Products

  const FILE_NAME := 100

  class FileSystem {
    const geo: Geometry
    const entries: array<Entry>
    const fat: array<int>
    const disk: array<string>
    ghost var lay: Layout

    ghost function Snap(): (im: Image)
      reads this, entries, fat, disk
    {
      Image(entries[..], fat[..], disk[..])
    }

    ghost predicate Shaped()
    {
      geo.bytes >= 1 && entries.Length == geo.entries && fat.Length == disk.Length == geo.blocks
    }

    ghost predicate Valid()
      reads this, entries, fat, disk
    {
      Shaped() && Inv(Snap(), lay, geo.bytes, -1)
    }

    /** The files, by name. */
    ghost function Dir(): (m: map<string, string>)
      requires Valid()
      reads this, entries, fat, disk
    {
      Directory(Snap(), lay, geo.bytes, -1)
    }

    /** A fresh file system: no entry in use, every block free. */
    constructor (geo: Geometry)
      requires geo.bytes >= 1
      ensures this.geo == geo && fresh(entries) && fresh(fat) && fresh(disk)
      ensures Valid() && Dir() == map[] && Saveable(entries[..])
      ensures forall e :: 0 <= e < entries.Length ==> entries[e] == BLANK
    {
      this.geo := geo;
      entries := new Entry[geo.entries](_ => BLANK);
      fat := new int[geo.blocks](_ => FREE);
      disk := new string[geo.blocks](_ => "");
      lay := Layout(seq(geo.entries, _ => []), seq(geo.blocks, _ => (0, 0)));
      new;
      FreshInv(Snap(), lay, geo.bytes);
    }

    // ---------- saving and loading ----------

    /** A new process: zeroed memory into which the three state files are read. */
    constructor Loaded(geo: Geometry, fe: string, fa: string, fd: string)
      ensures this.geo == geo && fresh(entries) && fresh(fat) && fresh(disk)
      ensures entries.Length == geo.entries && fat.Length == disk.Length == geo.blocks
      ensures entries[..] == LoadEntries(Blanks(geo.entries), fe)
      ensures fat[..] == LoadFat(Zeros(geo.blocks), fa)
      ensures disk[..] == LoadDisk(Empties(geo.blocks), fd, geo.bytes)
    {
      hide LoadEntries, LoadFat, LoadDisk;
      this.geo := geo;
      entries := new Entry[geo.entries](_ => BLANK);
      fat := new int[geo.blocks](_ => 0);
      disk := new string[geo.blocks](_ => "");
      new;
      assert entries[..] == Blanks(geo.entries);
      assert fat[..] == Zeros(geo.blocks);
      assert disk[..] == Empties(geo.blocks);
      LoadDirectory(fe);
      LoadTable(fa);
      LoadBlocks(fd);
    }

    /** Writes the three state files. */
    method Save() returns (fe: string, fa: string, fd: string)
      requires Shaped()
      ensures fe == SaveEntries(entries[..]) && fa == SaveFat(fat[..]) && fd == SaveDisk(disk[..])
    {
      hide PrintEntry;
      fe, fa, fd := "", "", "";
      for i := 0 to entries.Length
        invariant fe + SaveEntries(entries[i..]) == SaveEntries(entries[..])
      {
        assert entries[i..][1..] == entries[i + 1..];
        fe := fe + PrintEntry(entries[i]);
      }
      for i := 0 to fat.Length
        invariant fa + SaveFat(fat[i..]) == SaveFat(fat[..])
      {
        SaveFatNext(fat[..], i, fa);
        fa := fa + PrintInt(fat[i]) + "\n";
      }
      for i := 0 to disk.Length
        invariant fd + SaveDisk(disk[i..]) == SaveDisk(disk[..])
      {
        SaveDiskNext(disk[..], i, fd);
        fd := fd + disk[i] + "\n";
      }
      assert fe + SaveEntries([]) == fe && fa + SaveFat([]) == fa && fd + SaveDisk([]) == fd;
    }

    method LoadDirectory(fe: string)
      modifies entries
      ensures entries[..] == LoadEntries(old(entries[..]), fe)
    {
      hide LoadEntry, LoadEntries;
      var rest := fe;
      for i := 0 to entries.Length
        invariant entries[..i] + LoadEntries(old(entries[..])[i..], rest) == LoadEntries(old(entries[..]), fe)
        invariant entries[i..] == old(entries[..])[i..]
      {
        LoadEntriesNext(old(entries[..]), i, rest, entries[..i]);
        assert entries[i] == old(entries[..])[i];
        var r := LoadEntry(entries[i], rest);
        entries[i] := r.0;
        rest := r.1;
      }
    }

    method LoadTable(fa: string)
      modifies fat
      ensures fat[..] == LoadFat(old(fat[..]), fa)
    {
      hide ScanInt, LoadFat;
      var rest := fa;
      for i := 0 to fat.Length
        invariant fat[..i] + LoadFat(old(fat[..])[i..], rest) == LoadFat(old(fat[..]), fa)
        invariant fat[i..] == old(fat[..])[i..]
      {
        LoadFatNext(old(fat[..]), i, rest, fat[..i]);
        assert fat[i] == old(fat[..])[i];
        var scan := ScanInt(rest);
        if scan.Got? {
          fat[i] := scan.value;
        }
        rest := Unread(scan);
      }
    }

    method LoadBlocks(fd: string)
      modifies disk
      ensures disk[..] == LoadDisk(old(disk[..]), fd, geo.bytes)
    {
      hide GetLine, LoadDisk;
      var rest := fd;
      var i := 0;
      while i < disk.Length && rest != ""
        invariant 0 <= i <= disk.Length
        invariant disk[..i] + LoadDisk(old(disk[..])[i..], rest, geo.bytes) == LoadDisk(old(disk[..]), fd, geo.bytes)
        invariant disk[i..] == old(disk[..])[i..]
      {
        LineNonempty(rest, geo.bytes);
        LoadDiskNext(old(disk[..]), i, rest, geo.bytes, disk[..i]);
        var line := GetLine(rest, geo.bytes + 1);
        disk[i] := line[..|line| - 1];
        rest := rest[|line|..];
        i := i + 1;
      }
      LoadDiskEnd(old(disk[..])[i..], rest, geo.bytes);
    }

    // ---------- searching ----------

    method FindFile(name: string) returns (file: nat)
      requires Shaped()
      ensures file <= entries.Length
      ensures forall e :: 0 <= e < file ==> !(entries[e].use != 0 && entries[e].name == name)
      ensures file < entries.Length ==> entries[file].use != 0 && entries[file].name == name
    {
      file := 0;
      while file < entries.Length
        invariant file <= entries.Length
        invariant forall e :: 0 <= e < file ==> !(entries[e].use != 0 && entries[e].name == name)
      {
        if entries[file].use != 0 && entries[file].name == name {
          break;
        }
        file := file + 1;
      }
    }

    method FindFreeEntry() returns (e: nat)
      requires Shaped()
      ensures e <= entries.Length
      ensures forall d :: 0 <= d < e ==> entries[d].use != 0
      ensures e < entries.Length ==> entries[e].use == 0
    {
      e := 0;
      while e < entries.Length
        invariant e <= entries.Length
        invariant forall d :: 0 <= d < e ==> entries[d].use != 0
      {
        if entries[e].use == 0 {
          break;
        }
        e := e + 1;
      }
    }

    method FindFreeBlock() returns (b: nat)
      requires Shaped()
      ensures b <= fat.Length
      ensures forall x :: 0 <= x < b ==> fat[x] != FREE
      ensures b < fat.Length ==> fat[b] == FREE
    {
      b := 0;
      while b < fat.Length
        invariant b <= fat.Length
        invariant forall x :: 0 <= x < b ==> fat[x] != FREE
      {
        if fat[b] == FREE {
          break;
        }
        b := b + 1;
      }
    }

    // ---------- create ----------

    method Create(name: string) returns (r: CreateResult)
      requires Valid() && |name| <= FILE_NAME
      modifies this`lay, entries, fat, disk
      ensures Valid() && (Dir(), r) == SpecCreate(geo, old(Dir()), name)
      ensures Places(entries[..])
              == if r.Created? then Put(old(Places(entries[..])), name) else old(Places(entries[..]))
      ensures old(Saveable(entries[..])) && (Word(name) || r != Created) ==> Saveable(entries[..])
    {
      hide Inv, Saveable, Directory, Places, Put, UsedBlocks, Word;
      var dup := FindFile(name);
      if dup < entries.Length {
        FileThere(Snap(), lay, geo.bytes, dup);
        return AlreadyExists;
      }
      NotThere(Snap(), lay, geo.bytes, name);
      FreeIsRest(Snap(), lay, geo.bytes);
      UseBits(Snap(), lay, geo.bytes);
      var free := FindFreeEntry();
      if free == entries.Length {
        AllInUse(entries[..]);
        return NoFreeEntry;
      }
      NotAllInUse(entries[..], free);
      var b := FindFreeBlock();
      if b == fat.Length {
        NoneFree(fat[..]);
        return NoFreeBlock;
      }
      SomeFree(fat[..], b);
      CreateDirectory(Snap(), lay, geo.bytes, free, b, name);
      if Saveable(entries[..]) && Word(name) {
        InsertSaveable(entries[..], free, b, name);
      }
      PlacesCreate(entries[..], free, Entry(name, b, 0, 1));
      TakeEntry(free, b, name);
      lay := ExtendLayout(lay, free, b);
      r := Created;
    }

    method TakeEntry(e: nat, b: nat, name: string)
      requires Shaped() && e < entries.Length && b < fat.Length
      modifies entries, fat, disk
      ensures Snap() == Image(old(entries[..])[e := Entry(name, b, 0, 1)],
                              old(fat[..])[b := LAST], old(disk[..])[b := ""])
    {
      entries[e] := entries[e].(start := b);
      fat[b] := LAST;
      disk[b] := "";
      entries[e] := entries[e].(name := name);
      entries[e] := entries[e].(size := 0);
      entries[e] := entries[e].(use := 1);
    }

    // ---------- walking a chain ----------

    /** Follows the chain of entry `file` to its last block. */
    method LastBlock(file: nat) returns (block: nat)
      requires Valid() && file < entries.Length && entries[file].use == 1
      ensures file < |lay.chains| == entries.Length && lay.chains[file] != []
      ensures block == lay.chains[file][|lay.chains[file]| - 1] && block < fat.Length
    {
      ChainLinks(Snap(), lay, geo.bytes, file);
      hide Inv;
      ghost var chain := lay.chains[file];
      assert IsChain(fat[..], entries[file].start, chain);
      block := entries[file].start;
      ghost var j := 0;
      while fat[block] >= 0
        invariant 0 <= j < |chain| && block == chain[j] && block < fat.Length
        decreases |chain| - j
      {
        assert PointsOn(fat[..], chain, j);
        block := fat[block];
        j := j + 1;
      }
      assert PointsOn(fat[..], chain, j);
    }

    // ---------- read ----------

    method Read(name: string) returns (r: Option<string>)
      requires Valid()
      ensures r == SpecRead(Dir(), name)
    {
      var file := FindFile(name);
      if file == entries.Length {
        NotThere(Snap(), lay, geo.bytes, name);
        return None;
      }
      FileThere(Snap(), lay, geo.bytes, file);
      ChainLinks(Snap(), lay, geo.bytes, file);
      hide Inv, Directory, FileContent;
      var out := ReadChain(entries[file].start, lay.chains[file]);
      FileIs(Snap(), lay, geo.bytes, file);
      r := Some(out);
    }

    /** Prints block after block along a chain. */
    method ReadChain(start: nat, ghost chain: seq<nat>) returns (out: string)
      requires Shaped() && IsChain(fat[..], start, chain)
      ensures InDisk(disk[..], chain) && out == Content(disk[..], chain)
    {
      hide Content;
      var block := start;
      ghost var j := 0;
      ContentNone(disk[..], chain);
      out := "";
      while fat[block] >= 0
        invariant 0 <= j < |chain| && block == chain[j] && block < fat.Length
        invariant out == Content(disk[..], chain[..j])
        decreases |chain| - j
      {
        ContentNext(disk[..], chain, j);
        assert PointsOn(fat[..], chain, j);
        out := out + disk[block];
        block := fat[block];
        j := j + 1;
      }
      assert PointsOn(fat[..], chain, j);
      ContentNext(disk[..], chain, j);
      out := out + disk[block];
      assert chain[..j + 1] == chain;
    }

    // ---------- list ----------

    /** Every file once, with its size, in the order of the table. */
    method List() returns (listing: seq<(string, int)>)
      requires Valid()
      ensures Lists(Dir(), listing) && listing == ListingOf(Places(entries[..]), Dir())
    {
      UseBits(Snap(), lay, geo.bytes);
      hide Inv, Directory;
      listing := [];
      for i := 0 to entries.Length
        invariant listing == Listing(entries[..i])
      {
        assert entries[..i + 1][..i] == entries[..i];
        if entries[i].use != 0 {
          listing := listing + [(entries[i].name, entries[i].size)];
        }
      }
      assert entries[..] == entries[..entries.Length];
      ListingIs(Snap(), lay, geo.bytes);
    }

    // ---------- delete ----------

    method Delete(name: string) returns (found: bool)
      requires Valid()
      modifies this`lay, entries, fat
      ensures Valid() && (Dir(), found) == SpecDelete(old(Dir()), name)
      ensures Places(entries[..]) == Clear(old(Places(entries[..])), name)
      ensures old(Saveable(entries[..])) ==> Saveable(entries[..])
    {
      hide Saveable;
      var file := FindFile(name);
      if file == entries.Length {
        NotThere(Snap(), lay, geo.bytes, name);
        PlacesMissing(entries[..], name);
        assert Dir() - {name} == Dir();
        return false;
      }
      FileThere(Snap(), lay, geo.bytes, file);
      RemoveDirectory(Snap(), lay, geo.bytes, file);
      RemoveSaveable(entries[..], file);
      UseBits(Snap(), lay, geo.bytes);
      PlacesDelete(entries[..], file);
      hide Inv, Directory, Places, Clear;
      FreeFile(file);
      lay := RemoveLayout(lay, file);
      found := true;
    }

    /** Marks the blocks of a file free one after the other, and its entry as not in use. */
    method FreeFile(file: nat)
      requires Valid() && file < entries.Length && entries[file].use == 1
      modifies entries, fat
      ensures file < |lay.chains| && Snap() == Remove(old(Snap()), lay.chains[file], file)
    {
      ChainLinks(Snap(), lay, geo.bytes, file);
      ghost var chain := lay.chains[file];
      ghost var before := fat[..];
      assert IsChain(before, entries[file].start, chain);
      hide Inv;
      assert fat[..] == FreeBlocks(before, chain[..0]);
      var block: nat := entries[file].start;
      ghost var j := 0;
      while fat[block] >= 0
        invariant 0 <= j < |chain| && block == chain[j] && block < fat.Length
        invariant fat[..] == FreeBlocks(before, chain[..j]) && entries[..] == old(entries[..])
        decreases |chain| - j
      {
        FreeNext(before, chain, j);
        assert PointsOn(before, chain, j);
        var next := fat[block];
        fat[block] := FREE;
        block := next;
        j := j + 1;
      }
      FreeNext(before, chain, j);
      assert PointsOn(before, chain, j);
      assert chain[..j + 1] == chain;
      fat[block] := FREE;
      entries[file] := entries[file].(use := 0);
    }

    // ---------- write ----------

    method Write(name: string, content: string) returns (r: WriteResult)
      requires Valid() && '\0' !in content
      modifies this`lay, entries, fat, disk
      ensures Valid() && (Dir(), r) == SpecWrite(geo, old(Dir()), name, content)
      ensures Places(entries[..]) == old(Places(entries[..]))
      ensures old(Saveable(entries[..])) ==> Saveable(entries[..])
    {
      var file := FindFile(name);
      if file == entries.Length {
        NotThere(Snap(), lay, geo.bytes, name);
        return WriteMissing;
      }
      FileThere(Snap(), lay, geo.bytes, file);
      var block := LastBlock(file);
      ghost var w := Before(Snap(), lay, geo.bytes, file);
      AppendStart(w, geo, block);
      ghost var room := Room(geo, Dir(), name);
      hide *;
      ghost var last;
      var p;
      p, last := WriteFrom(file, block, content, w, room);
      WriteDone(w, Snap(), lay, geo, content, p, last, room);
      r := if p < |content| then PartialWrite else Written;
    }

    /** Stores one byte at the end of a block and counts it. */
    method PutOne(file: nat, block: nat, c: char)
      requires Shaped() && file < entries.Length && block < disk.Length
      modifies entries, disk
      ensures Snap() == PutByte(old(Snap()), file, block, c)
    {
      disk[block] := disk[block] + [c];
      entries[file] := entries[file].(size := entries[file].size + 1);
    }

    /** Writes byte by byte until the block is full or the content is used up. */
    method Fill(file: nat, block: nat, content: string, p: nat, ghost w: Before, ghost open: int, ghost room: int)
      returns (p': nat, ghost open': int)
      requires Shaped() && file == w.e && geo.bytes == w.bytes && file < entries.Length && block < disk.Length
      requires p <= |content| && '\0' !in content
      requires Appending(w, Snap(), lay, open, block, Sanitize(content[..p]), room)
      modifies entries, disk
      ensures p <= p' <= |content| && open' == (if p' > p then -1 else open)
      ensures Appending(w, Snap(), lay, open', block, Sanitize(content[..p']), room)
      ensures p' == |content| || |disk[block]| >= geo.bytes
      ensures p < |content| && |old(disk[block])| < geo.bytes ==> p' > p
    {
      hide Appending, Sanitize;
      p', open' := p, open;
      while |disk[block]| < geo.bytes && p' < |content|
        invariant p <= p' <= |content| && open' == (if p' > p then -1 else open)
        invariant Appending(w, Snap(), lay, open', block, Sanitize(content[..p']), room)
        invariant p' == p ==> disk[..] == old(disk[..])
      {
        var c := if content[p'] == '\n' then ' ' else content[p'];
        SanitizeNext(content, p');
        AppendByte(w, Snap(), lay, open', block, Sanitize(content[..p']), room, c);
        PutOne(file, block, c);
        p', open' := p' + 1, -1;
      }
    }

    /** The outer loop: fill the block, and chain a free one as long as there is content left. */
    method WriteFrom(file: nat, start: nat, content: string, ghost w: Before, ghost room: int)
      returns (p: nat, ghost last: nat)
      requires Shaped() && file == w.e && geo.bytes == w.bytes && file < entries.Length && start < disk.Length
      requires '\0' !in content && Appending(w, Snap(), lay, -1, start, "", room)
      modifies this`lay, entries, fat, disk
      ensures p <= |content| && Appending(w, Snap(), lay, -1, last, Sanitize(content[..p]), room)
      ensures p < |content| ==> p == room
    {
      hide Appending, Sanitize;
      SanitizeNothing(content);
      var block: nat := start;
      p := 0;
      ghost var open := -1;
      while p < |content|
        invariant p <= |content| && block < disk.Length
        invariant Appending(w, Snap(), lay, open, block, Sanitize(content[..p]), room)
        invariant open != -1 ==> |disk[block]| == 0 && p < |content|
        decreases |content| - p, FreeCount(fat[..])
      {
        p, open := Fill(file, block, content, p, w, open, room);
        if p < |content| {
          var nb := FindFreeBlock();
          FullBlock(w, Snap(), lay, open, block, Sanitize(content[..p]), room);
          if nb == fat.Length {
            NoneFree(fat[..]);
            last := block;
            return;
          }
          AppendLink(w, Snap(), lay, open, block, Sanitize(content[..p]), room, nb);
          ExtendIs(w, Snap(), lay, open, block, Sanitize(content[..p]), room, nb);
          LinkNew(block, nb);
          lay := ExtendLayout(lay, w.e, nb);
          block, open := nb, w.e;
        }
      }
      last := block;
    }

    /** Appends the free block `nb` after `block`. */
    method LinkNew(block: nat, nb: nat)
      requires Shaped() && block < fat.Length && nb < fat.Length
      modifies fat, disk
      ensures Snap() == Image(old(entries[..]), old(fat[..])[block := nb][nb := LAST], old(disk[..])[nb := ""])
    {
      fat[block] := nb;
      fat[nb] := LAST;
      disk[nb] := "";
    }
  }

  // ---------- listing ----------

  function Listing(es: seq<Entry>): (listing: seq<(string, int)>)
  {
    if es == [] then [] else
      var n := |es| - 1;
      Listing(es[..n]) + if es[n].use != 0 then [(es[n].name, es[n].size)] else []
  }

  lemma {:induction false} ListingLists(es: seq<Entry>, cs: seq<string>)
    requires |es| == |cs| && NamesDiffer(es)
    requires forall e :: 0 <= e < |es| ==>
               (es[e].use == 0 || es[e].use == 1) && (es[e].use == 1 ==> es[e].size == |cs[e]|)
    ensures Lists(Files(es, cs), Listing(es))
  {
    if es != [] {
      var n := |es| - 1;
      ListingLists(es[..n], cs[..n]);
      if es[n].use == 1 && es[n].name in Files(es[..n], cs[..n]) {
        var d := FilesFrom(es[..n], cs[..n], es[n].name);
      }
    }
  }

  lemma {:induction false} ListingInOrder(es: seq<Entry>, m: map<string, string>)
    requires forall e :: 0 <= e < |es| && es[e].use != 0 ==> es[e].size == SizeOf(m, es[e].name)
    ensures Listing(es) == ListingOf(Places(es), m)
  {
    if es != [] {
      var n := |es| - 1;
      ListingInOrder(es[..n], m);
      assert Places(es) == Places(es[..n]) + [Places(es)[n]];
      NamesSnoc(Places(es[..n]), Places(es)[n]);
      hide Names;
    }
  }

  lemma ListingIs(im: Image, lay: Layout, bytes: nat)
    requires Inv(im, lay, bytes, -1)
    ensures Lists(Directory(im, lay, bytes, -1), Listing(im.entries))
    ensures Listing(im.entries) == ListingOf(Places(im.entries), Directory(im, lay, bytes, -1))
  {
    UseBits(im, lay, bytes);
    var cs := Contents(im, lay, bytes, -1);
    forall e | 0 <= e < |im.entries| && im.entries[e].use == 1
      ensures im.entries[e].size == |cs[e]|
      ensures SizeOf(Files(im.entries, cs), im.entries[e].name) == |cs[e]|
    {
      assert EntryLinked(im, lay, e);
      assert FilledAt(im, lay, bytes, -1, e);
      FileIs(im, lay, bytes, e);
      FilesHas(im.entries, cs, e);
    }
    hide Inv, FileContent, Files, Listing, Lists, Names, Places;
    ListingLists(im.entries, cs);
    ListingInOrder(im.entries, Files(im.entries, cs));
  }

  lemma FreshInv(im: Image, lay: Layout, bytes: nat)
    requires bytes >= 1 && Sized(im, lay)
    requires forall e :: 0 <= e < |im.entries| ==> im.entries[e] == BLANK && lay.chains[e] == []
    requires forall b :: 0 <= b < |im.fat| ==> im.fat[b] == FREE && im.disk[b] == ""
    ensures Inv(im, lay, bytes, -1) && Directory(im, lay, bytes, -1) == map[]
    ensures Saveable(im.entries)
  {
    AllFree(im.fat);
    NoChains(lay.chains);
    assert Inv(im, lay, bytes, -1);
    NoFiles(im.entries, Contents(im, lay, bytes, -1));
  }

  lemma SaveFatNext(fat: seq<int>, i: nat, out: string)
    requires i < |fat|
    ensures out + SaveFat(fat[i..]) == out + PrintInt(fat[i]) + "\n" + SaveFat(fat[i + 1..])
  {
    hide PrintInt;
    assert fat[i..][1..] == fat[i + 1..];
  }

  lemma SaveDiskNext(disk: seq<string>, i: nat, out: string)
    requires i < |disk|
    ensures out + SaveDisk(disk[i..]) == out + disk[i] + "\n" + SaveDisk(disk[i + 1..])
  {
    assert disk[i..][1..] == disk[i + 1..];
  }

  lemma LoadEntriesNext(prior: seq<Entry>, i: nat, s: string, done: seq<Entry>)
    requires i < |prior|
    ensures var r := LoadEntry(prior[i], s);
            done + LoadEntries(prior[i..], s) == done + [r.0] + LoadEntries(prior[i + 1..], r.1)
  {
    hide LoadEntry;
    assert prior[i..][1..] == prior[i + 1..];
  }

  lemma LoadFatNext(prior: seq<int>, i: nat, s: string, done: seq<int>)
    requires i < |prior|
    ensures var scan := ScanInt(s);
            done + LoadFat(prior[i..], s)
            == done + [if scan.Got? then scan.value else prior[i]] + LoadFat(prior[i + 1..], Unread(scan))
  {
    hide ScanInt;
    assert prior[i..][1..] == prior[i + 1..];
  }

  lemma LoadDiskNext(prior: seq<string>, i: nat, s: string, bytes: nat, done: seq<string>)
    requires i < |prior| && s != "" && |GetLine(s, bytes + 1)| >= 1
    ensures var line := GetLine(s, bytes + 1);
            done + LoadDisk(prior[i..], s, bytes)
            == done + [line[..|line| - 1]] + LoadDisk(prior[i + 1..], s[|line|..], bytes)
  {
    hide GetLine;
    assert prior[i..][1..] == prior[i + 1..];
  }

  lemma LoadDiskEnd(prior: seq<string>, s: string, bytes: nat)
    requires prior == [] || s == ""
    ensures LoadDisk(prior, s, bytes) == prior
  {
  }

  lemma LineNonempty(s: string, bytes: nat)
    requires s != ""
    ensures |GetLine(s, bytes + 1)| >= 1
  {
  }

  lemma {:induction false} AllFree(fat: seq<int>)
    requires forall b :: 0 <= b < |fat| ==> fat[b] == FREE
    ensures FreeCount(fat) == |fat|
  {
    if fat != [] {
      AllFree(fat[..|fat| - 1]);
    }
  }

  lemma {:induction false} NoChains(chains: seq<seq<nat>>)
    requires forall e :: 0 <= e < |chains| ==> chains[e] == []
    ensures ChainTotal(chains) == 0
  {
    if chains != [] {
      NoChains(chains[..|chains| - 1]);
    }
  }

  lemma {:induction false} NoFiles(es: seq<Entry>, cs: seq<string>)
    requires |es| == |cs| && forall e :: 0 <= e < |es| ==> es[e].use != 1
    ensures Files(es, cs) == map[]
  {
    if es != [] {
      NoFiles(es[..|es| - 1], cs[..|es| - 1]);
    }
  }

  lemma SanitizeNext(s: string, p: nat)
    requires p < |s| && '\0' !in s
    ensures var c := if s[p] == '\n' then ' ' else s[p];
            && Sanitize(s[..p + 1]) == Sanitize(s[..p]) + [c]
            && c != '\n' && c != '\0'
  {
    assert s[..p + 1] == s[..p] + [s[p]];
  }

  lemma SanitizeNothing(s: string)
    ensures Sanitize(s[..0]) == ""
  {
  }

  /** A block that the write has filled; with no free block left there is no room at all. */
  lemma FullBlock(w: Before, im: Image, lay: Layout, open: int, block: nat, text: string, room: int)
    requires Appending(w, im, lay, open, block, text, room) && block < |im.disk| && |im.disk[block]| >= w.bytes
    ensures |im.disk[block]| == w.bytes
    ensures FreeCount(im.fat) == 0 ==> |text| == room
  {
    ChainLast(im, lay, w.bytes, open, w.e);
    Distribute(0, 0, w.bytes);
    hide Times;
  }

  lemma ExtendIs(w: Before, im: Image, lay: Layout, open: int, block: nat, text: string, room: int, nb: nat)
    requires Appending(w, im, lay, open, block, text, room) && nb < |im.fat|
    ensures w.e < |lay.chains| && |im.fat| == |im.disk|
    ensures lay.chains[w.e] != [] && lay.chains[w.e][|lay.chains[w.e]| - 1] < |im.fat|
    ensures Extend(im, lay, w.e, nb) == Image(im.entries, im.fat[block := nb][nb := LAST], im.disk[nb := ""])
  {
  }

  /** The map after the write, complete or partial. */
  lemma WriteDone(w: Before, im: Image, lay: Layout, geo: Geometry, content: string, p: nat, last: nat, room: int)
    requires geo.bytes >= 1 && geo.bytes == w.bytes && Startable(w) && p <= |content|
    requires Appending(w, im, lay, -1, last, Sanitize(content[..p]), room) && (p < |content| ==> p == room)
    requires var m := Directory(w.im, w.lay, w.bytes, -1); var name := w.im.entries[w.e].name;
             name in m && room == Room(geo, m, name)
    ensures Inv(im, lay, geo.bytes, -1)
    ensures SpecWrite(geo, Directory(w.im, w.lay, w.bytes, -1), w.im.entries[w.e].name, content)
            == (Directory(im, lay, geo.bytes, -1), if p < |content| then PartialWrite else Written)
    ensures Saveable(w.im.entries) ==> Saveable(im.entries)
    ensures Places(im.entries) == Places(w.im.entries)
  {
    PlacesSame(w.im.entries, im.entries);
    AppendEnd(w, im, lay, last, Sanitize(content[..p]), room);
    if Saveable(w.im.entries) {
      AppendNames(w, im);
    }
    hide Inv, Directory, Room, Saveable;
  }

  /** `chain` is what following the FAT from `start` yields, up to the end mark. */
  ghost predicate IsChain(fat: seq<int>, start: int, chain: seq<nat>)
  {
    && chain != [] && start == chain[0]
    && (forall j :: 0 <= j < |chain| ==> chain[j] < |fat|)
    && (forall j :: 0 <= j < |chain| ==> PointsOn(fat, chain, j))
    && (forall i, j :: 0 <= i < j < |chain| ==> chain[i] != chain[j])
  }

  ghost predicate PointsOn(fat: seq<int>, chain: seq<nat>, j: nat)
    requires j < |chain| && chain[j] < |fat|
  {
    fat[chain[j]] == if j + 1 < |chain| then chain[j + 1] as int else LAST
  }

  lemma ChainLinks(im: Image, lay: Layout, bytes: nat, e: nat)
    requires Inv(im, lay, bytes, -1) && e < |im.entries| && im.entries[e].use == 1
    ensures |lay.chains| == |im.entries| && |im.disk| == |im.fat|
    ensures IsChain(im.fat, im.entries[e].start, lay.chains[e])
  {
    assert EntryLinked(im, lay, e);
    var chain := lay.chains[e];
    forall j | 0 <= j < |chain|
      ensures chain[j] < |im.fat| && PointsOn(im.fat, chain, j)
    {
      assert LinkAt(im, lay, e, j);
    }
    ChainDistinct(im, lay, e);
  }

  lemma ContentNone(disk: seq<string>, chain: seq<nat>)
    requires InDisk(disk, chain)
    ensures Content(disk, chain[..0]) == ""
  {
  }

  lemma ContentNext(disk: seq<string>, chain: seq<nat>, j: nat)
    requires InDisk(disk, chain) && j < |chain|
    ensures Content(disk, chain[..j + 1]) == Content(disk, chain[..j]) + disk[chain[j]]
  {
    assert chain[..j + 1][..j] == chain[..j];
  }

  lemma FileIs(im: Image, lay: Layout, bytes: nat, e: nat)
    requires Inv(im, lay, bytes, -1) && e < |im.entries|
    ensures |lay.chains| == |im.entries| && InDisk(im.disk, lay.chains[e])
    ensures FileContent(im, lay, bytes, -1, e) == Content(im.disk, lay.chains[e])
  {
    assert FilledAt(im, lay, bytes, -1, e);
  }

  /** Freeing one more block of a chain. */
  lemma FreeNext(fat: seq<int>, chain: seq<nat>, j: nat)
    requires j < |chain| && (forall i :: 0 <= i < |chain| ==> chain[i] < |fat|)
    requires forall i, k :: 0 <= i < k < |chain| ==> chain[i] != chain[k]
    ensures FreeBlocks(fat, chain[..j])[chain[j] := FREE] == FreeBlocks(fat, chain[..j + 1])
    ensures FreeBlocks(fat, chain[..j])[chain[j]] == fat[chain[j]]
  {
    assert chain[..j + 1] == chain[..j] + [chain[j]];
  }

  lemma RemoveDirectory(im: Image, lay: Layout, bytes: nat, e: nat)
    requires Inv(im, lay, bytes, -1) && e < |im.entries| && im.entries[e].use == 1
    ensures e < |lay.chains|
    ensures var r, lay' := Remove(im, lay.chains[e], e), RemoveLayout(lay, e);
            && Inv(r, lay', bytes, -1)
            && Directory(r, lay', bytes, -1) == Directory(im, lay, bytes, -1) - {im.entries[e].name}
  {
    RemoveKeeps(im, lay, bytes, e);
    var r, lay' := Remove(im, lay.chains[e], e), RemoveLayout(lay, e);
    UseBits(im, lay, bytes);
    UseBits(r, lay', bytes);
    var cs, cs' := Contents(im, lay, bytes, -1), Contents(r, lay', bytes, -1);
    hide Inv, FileContent, Files;
    FilesDrop(im.entries, cs, r.entries, cs', e, im.entries[e].name);
  }

  lemma RemoveSaveable(es: seq<Entry>, e: nat)
    requires e < |es| && es[e].use == 1
    ensures Saveable(es) ==> Saveable(es[e := es[e].(use := 0)])
  {
    hide Word;
  }

  lemma FileThere(im: Image, lay: Layout, bytes: nat, e: nat)
    requires Inv(im, lay, bytes, -1) && e < |im.entries| && im.entries[e].use != 0
    ensures im.entries[e].use == 1 && im.entries[e].name in Directory(im, lay, bytes, -1)
    ensures Directory(im, lay, bytes, -1)[im.entries[e].name] == FileContent(im, lay, bytes, -1, e)
  {
    UseBits(im, lay, bytes);
    FilesHas(im.entries, Contents(im, lay, bytes, -1), e);
  }

  lemma UseBits(im: Image, lay: Layout, bytes: nat)
    requires Inv(im, lay, bytes, -1)
    ensures forall e :: 0 <= e < |im.entries| ==> im.entries[e].use == 0 || im.entries[e].use == 1
    ensures NamesDiffer(im.entries)
  {
    forall e | 0 <= e < |im.entries|
      ensures im.entries[e].use == 0 || im.entries[e].use == 1
    {
      assert EntryLinked(im, lay, e);
    }
  }

  lemma NotThere(im: Image, lay: Layout, bytes: nat, name: string)
    requires Inv(im, lay, bytes, -1)
    requires forall e :: 0 <= e < |im.entries| ==> !(im.entries[e].use != 0 && im.entries[e].name == name)
    ensures name !in Directory(im, lay, bytes, -1)
  {
    if name in Directory(im, lay, bytes, -1) {
      var e := FilesFrom(im.entries, Contents(im, lay, bytes, -1), name);
    }
  }

  lemma CreateDirectory(im: Image, lay: Layout, bytes: nat, e: nat, b: nat, name: string)
    requires Inv(im, lay, bytes, -1) && e < |im.entries| && im.entries[e].use == 0 && b < |im.fat| && im.fat[b] == FREE
    requires forall d :: 0 <= d < |im.entries| ==> !(im.entries[d].use != 0 && im.entries[d].name == name)
    ensures |lay.chains| == |im.entries| && |lay.owner| == |im.fat| == |im.disk| && lay.chains[e] == []
    ensures var r, lay' := Install(Extend(im, lay, e, b), e, b, name), ExtendLayout(lay, e, b);
            && Inv(r, lay', bytes, -1)
            && Directory(r, lay', bytes, -1) == Directory(im, lay, bytes, -1)[name := ""]
  {
    CreateKeeps(im, lay, bytes, e, b, name);
    var r, lay' := Install(Extend(im, lay, e, b), e, b, name), ExtendLayout(lay, e, b);
    UseBits(im, lay, bytes);
    UseBits(r, lay', bytes);
    hide Inv, FileContent, Files;
    FilesPut(im.entries, Contents(im, lay, bytes, -1), r.entries, Contents(r, lay', bytes, -1), e, name);
  }
}
