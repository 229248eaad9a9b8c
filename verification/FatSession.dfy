/**
 One process per command: load the state files, carry out the command, save. A whole history of such
 processes is proved to answer as one folder that lives on between them: a map from names to contents, and the
 places of the files in the directory.
 */
module FatSession {
  import opened Basics
  import opened FatLayout
  import opened FatOps
  import opened FatSpec
  import opened FatPlaces
  import opened FatStore
  import opened FatFileSystem

  datatype Command =
    | Create(name: string)
    | Write(name: string, content: string)
    | Read(name: string)
    | Delete(name: string)
    | List

  datatype Output =
    | Creation(created: CreateResult)
    | Writing(written: WriteResult)
    | Reading(text: Option<string>)
    | Deletion(found: bool)
    | Listed(listing: seq<(string, int)>)

  datatype Saved = Saved(fe: string, fa: string, fd: string)

  datatype Folder = Folder(files: map<string, string>, places: Row)

  // ---------- the specification ----------

  /** The arguments are C strings, and a new name fits its field. */
  ghost predicate Typed(cmd: Command)
  {
    match cmd
    case Create(name) => '\0' !in name && |name| <= FILE_NAME
    case Write(_, content) => '\0' !in content
    case _ => true
  }

  /** The command does not create a file whose name is not a single word. */
  ghost predicate Lasts(geo: Geometry, f: Folder, cmd: Command)
    requires geo.bytes >= 1
  {
    cmd.Create? && SpecCreate(geo, f.files, cmd.name).1.Created? ==> Word(cmd.name)
  }

  ghost function Step(geo: Geometry, f: Folder, cmd: Command): (f': Folder)
    requires geo.bytes >= 1
  {
    match cmd
    case Create(name) =>
      var (files, r) := SpecCreate(geo, f.files, name);
      Folder(files, if r.Created? then Put(f.places, name) else f.places)
    case Write(name, content) => f.(files := SpecWrite(geo, f.files, name, content).0)
    case Delete(name) => Folder(SpecDelete(f.files, name).0, Clear(f.places, name))
    case _ => f
  }

  /** The one answer a command gets. */
  ghost function Answer(geo: Geometry, f: Folder, cmd: Command): (out: Output)
    requires geo.bytes >= 1
  {
    match cmd
    case Create(name) => Creation(SpecCreate(geo, f.files, name).1)
    case Write(name, content) => Writing(SpecWrite(geo, f.files, name, content).1)
    case Read(name) => Reading(SpecRead(f.files, name))
    case Delete(name) => Deletion(SpecDelete(f.files, name).1)
    case List => Listed(ListingOf(f.places, f.files))
  }

  ghost function Fresh(geo: Geometry): (f: Folder)
  {
    Folder(map[], Empty(geo.entries))
  }

  /** The folder after a history of commands. */
  ghost function History(geo: Geometry, cmds: seq<Command>): (f: Folder)
    requires geo.bytes >= 1
  {
    if cmds == [] then Fresh(geo) else Step(geo, History(geo, cmds[..|cmds| - 1]), cmds[|cmds| - 1])
  }

  // ---------- what the state files hold ----------

  /** The tables of a new process that has read the state files. */
  function LoadedImage(geo: Geometry, files: Saved): (im: Image)
    ensures |im.entries| == geo.entries && |im.fat| == |im.disk| == geo.blocks
  {
    Image(LoadEntries(Blanks(geo.entries), files.fe), LoadFat(Zeros(geo.blocks), files.fa),
          LoadDisk(Empties(geo.blocks), files.fd, geo.bytes))
  }

  /** The tables loaded from the files satisfy the invariant and stand for the folder `f`. */
  ghost predicate Holds(geo: Geometry, files: Saved, lay: Layout, f: Folder)
  {
    && '\0' !in files.fe && Inv(LoadedImage(geo, files), lay, geo.bytes, -1)
    && FolderOf(LoadedImage(geo, files), lay, geo.bytes) == f
  }

  ghost function FolderOf(im: Image, lay: Layout, bytes: nat): (f: Folder)
    requires Inv(im, lay, bytes, -1)
  {
    Folder(Directory(im, lay, bytes, -1), Places(im.entries))
  }

  ghost predicate Stored(geo: Geometry, saved: Option<Saved>, f: Folder)
  {
    match saved
    case None => f == Fresh(geo)
    case Some(files) => exists lay :: Holds(geo, files, lay, f)
  }

  /** A process that has read the files finds a file of this name. */
  ghost predicate Findable(geo: Geometry, files: Saved, name: string)
  {
    var es := LoadedImage(geo, files).entries;
    exists e :: 0 <= e < |es| && es[e].use != 0 && es[e].name == name
  }

  // ---------- loading gives the same files ----------

  ghost predicate Reloaded(es: seq<Entry>, es': seq<Entry>)
  {
    |es'| == |es| && forall e :: 0 <= e < |es| ==> Restored(es[e], es'[e])
  }

  /** Loading agrees with what was saved on the use bits and on all entries in use. */
  lemma UsedRestored(es: seq<Entry>, es': seq<Entry>, e: nat)
    requires Saveable(es) && Reloaded(es, es') && e < |es|
    ensures es'[e].use == es[e].use && (es[e].use != 0 ==> es'[e] == es[e])
  {
    assert Restored(es[e], es'[e]);
    assert Word(es[e].name) || es[e] == BLANK;
  }

  lemma LoadedInv(im: Image, lay: Layout, bytes: nat, es': seq<Entry>)
    requires Inv(im, lay, bytes, -1) && Saveable(im.entries) && Reloaded(im.entries, es')
    ensures Inv(im.(entries := es'), lay, bytes, -1)
  {
    var im' := im.(entries := es');
    forall e | 0 <= e < |es'|
      ensures es'[e].use == im.entries[e].use && (es'[e].use != 0 ==> es'[e] == im.entries[e])
      ensures EntryLinked(im', lay, e) && FilledAt(im', lay, bytes, -1, e)
    {
      UsedRestored(im.entries, es', e);
      assert EntryLinked(im, lay, e) && FilledAt(im, lay, bytes, -1, e);
    }
    forall e, j | 0 <= e < |lay.chains| && 0 <= j < |lay.chains[e]|
      ensures LinkAt(im', lay, e, j)
    {
      assert LinkAt(im, lay, e, j);
    }
    forall b | 0 <= b < |im.fat|
      ensures OwnedAt(im', lay, b)
    {
      assert OwnedAt(im, lay, b);
    }
    assert Filled(im, lay, bytes, -1);
  }

  lemma {:induction false} FilesSame(es: seq<Entry>, es': seq<Entry>, cs: seq<string>)
    requires |es| == |es'| == |cs|
    requires forall e :: 0 <= e < |es| ==> es'[e].use == es[e].use && (es[e].use != 0 ==> es'[e] == es[e])
    ensures Files(es', cs) == Files(es, cs)
  {
    if es != [] {
      var n := |es| - 1;
      FilesSame(es[..n], es'[..n], cs[..n]);
    }
  }

  lemma LoadedDirectory(im: Image, lay: Layout, bytes: nat, es': seq<Entry>)
    requires Inv(im, lay, bytes, -1) && Saveable(im.entries) && Reloaded(im.entries, es')
    ensures Inv(im.(entries := es'), lay, bytes, -1)
    ensures FolderOf(im.(entries := es'), lay, bytes) == FolderOf(im, lay, bytes)
  {
    LoadedInv(im, lay, bytes, es');
    var im' := im.(entries := es');
    forall e | 0 <= e < |es'|
      ensures es'[e].use == im.entries[e].use && (im.entries[e].use != 0 ==> es'[e] == im.entries[e])
      ensures FileContent(im', lay, bytes, -1, e) == FileContent(im, lay, bytes, -1, e)
    {
      UsedRestored(im.entries, es', e);
      FileIs(im, lay, bytes, e);
      FileIs(im', lay, bytes, e);
    }
    hide Inv, FileContent, Saveable, Reloaded, Files;
    PlacesSame(im.entries, es');
    assert Contents(im', lay, bytes, -1) == Contents(im, lay, bytes, -1);
    FilesSame(im.entries, es', Contents(im, lay, bytes, -1));
  }

  ghost function SavedAs(im: Image): (files: Saved)
  {
    Saved(SaveEntries(im.entries), SaveFat(im.fat), SaveDisk(im.disk))
  }

  /** Save and load: FAT, disk, use bits and used entries come back, so the files are the same. */
  lemma RoundTrip(geo: Geometry, im: Image, lay: Layout)
    requires |im.entries| == geo.entries && |im.fat| == |im.disk| == geo.blocks
    requires Inv(im, lay, geo.bytes, -1) && Saveable(im.entries)
    ensures var r := LoadedImage(geo, SavedAs(im));
            r.fat == im.fat && r.disk == im.disk && Reloaded(im.entries, r.entries)
    ensures Holds(geo, SavedAs(im), lay, FolderOf(im, lay, geo.bytes))
  {
    hide *;
    BlocksClean(im, lay, geo.bytes);
    FatTableBack(Zeros(geo.blocks), im.fat);
    DiskBack(Empties(geo.blocks), im.disk, geo.bytes);
    DirectoryBack(Blanks(geo.entries), im.entries);
    LoadedDirectory(im, lay, geo.bytes, LoadEntries(Blanks(geo.entries), SaveEntries(im.entries)));
    SavedClean(im.entries);
    LoadedIs(geo, im, LoadEntries(Blanks(geo.entries), SaveEntries(im.entries)));
    IntroHolds(geo, SavedAs(im), lay, FolderOf(im, lay, geo.bytes));
  }

  lemma LoadedIs(geo: Geometry, im: Image, es: seq<Entry>)
    requires LoadEntries(Blanks(geo.entries), SaveEntries(im.entries)) == es
    requires LoadFat(Zeros(geo.blocks), SaveFat(im.fat)) == im.fat
    requires LoadDisk(Empties(geo.blocks), SaveDisk(im.disk), geo.bytes) == im.disk
    ensures LoadedImage(geo, SavedAs(im)) == im.(entries := es) && SavedAs(im).fe == SaveEntries(im.entries)
  {
    hide LoadEntries, LoadFat, LoadDisk, SaveEntries, SaveFat, SaveDisk, Blanks, Zeros, Empties;
  }

  lemma IntroHolds(geo: Geometry, files: Saved, lay: Layout, f: Folder)
    requires '\0' !in files.fe && Inv(LoadedImage(geo, files), lay, geo.bytes, -1)
    requires FolderOf(LoadedImage(geo, files), lay, geo.bytes) == f
    ensures Holds(geo, files, lay, f)
  {
  }

  lemma BlocksClean(im: Image, lay: Layout, bytes: nat)
    requires Inv(im, lay, bytes, -1)
    ensures forall b :: 0 <= b < |im.disk| ==> |im.disk[b]| <= bytes && Clean(im.disk[b])
  {
    assert Filled(im, lay, bytes, -1);
    hide Linked, Clean, FilledAt;
  }

  lemma FatTableBack(prior: seq<int>, fat: seq<int>)
    requires |prior| == |fat|
    ensures LoadFat(prior, SaveFat(fat)) == fat
  {
    hide LoadFat, SaveFat;
    NoSpace(SaveFat(fat));
    FatBack(prior, fat, "");
  }

  lemma DirectoryBack(blank: seq<Entry>, es: seq<Entry>)
    requires |blank| == |es| && AllBlank(blank) && Saveable(es)
    ensures Reloaded(es, LoadEntries(blank, SaveEntries(es))) && Saveable(LoadEntries(blank, SaveEntries(es)))
  {
    hide LoadEntries, SaveEntries, Saveable, AllBlank, Restored;
    NoSpace(SaveEntries(es));
    EntriesBack(blank, es, "");
  }

  // ---------- what stored files imply ----------

  /** Stored files respect the bounds of the disk and of the directory. */
  lemma StoredFits(geo: Geometry, files: Saved, f: Folder)
    requires geo.bytes >= 1 && Stored(geo, Some(files), f)
    ensures |f.files| <= geo.entries && |f.places| == geo.entries && UsedBlocks(f.files, geo.bytes) <= geo.blocks
  {
    var lay :| Holds(geo, files, lay, f);
    var im := LoadedImage(geo, files);
    hide Inv, Directory, LoadedImage;
    FreeIsRest(im, lay, geo.bytes);
    InUseBound(im.entries);
  }

  /** A process finds exactly the files of the map that the state files hold. */
  lemma StoredFinds(geo: Geometry, files: Saved, f: Folder, name: string)
    requires Stored(geo, Some(files), f)
    ensures Findable(geo, files, name) <==> name in f.files
  {
    var lay :| Holds(geo, files, lay, f);
    var im := LoadedImage(geo, files);
    hide Inv, Directory, LoadedImage;
    if Findable(geo, files, name) {
      var e :| 0 <= e < |im.entries| && im.entries[e].use != 0 && im.entries[e].name == name;
      FileThere(im, lay, geo.bytes, e);
    } else {
      NotThere(im, lay, geo.bytes, name);
    }
  }

  /** Whatever the state files are, a process that has read them finds only names that are one word. */
  lemma FoundIsWord(geo: Geometry, files: Saved, name: string)
    ensures Findable(geo, files, name) ==> OneWord(name)
  {
    if Findable(geo, files, name) {
      var es := LoadedImage(geo, files).entries;
      var e :| 0 <= e < |es| && es[e].use != 0 && es[e].name == name;
      hide LoadEntries, OneWord;
      LoadedNames(Blanks(geo.entries), files.fe, e);
    }
  }

  /** A created file whose name is not a single word is in the folder, but no state files let a process find it. */
  lemma NotKept(geo: Geometry, files: Saved, f: Folder, cmd: Command)
    requires geo.bytes >= 1 && Typed(cmd) && !Lasts(geo, f, cmd)
    ensures cmd.name in Step(geo, f, cmd).files && !Findable(geo, files, cmd.name)
    ensures !Stored(geo, Some(files), Step(geo, f, cmd))
  {
    hide Findable, Stored;
    FoundIsWord(geo, files, cmd.name);
    if Stored(geo, Some(files), Step(geo, f, cmd)) {
      StoredFinds(geo, files, Step(geo, f, cmd), cmd.name);
    }
  }

  // ---------- one process ----------

  /** What `main` does around each command. */
  method Open(geo: Geometry, saved: Option<Saved>, ghost f: Folder) returns (fs: FileSystem)
    requires geo.bytes >= 1 && Stored(geo, saved, f)
    ensures fresh(fs) && fresh(fs.entries) && fresh(fs.fat) && fresh(fs.disk)
    ensures fs.geo == geo && fs.Valid() && Now(fs) == f && Saveable(fs.entries[..])
  {
    hide Inv, Saveable, Directory, LoadEntries, LoadFat, LoadDisk, AllBlank;
    if saved.None? {
      fs := new FileSystem(geo);
    } else {
      var files := saved.value;
      ghost var lay :| Holds(geo, files, lay, f);
      fs := new FileSystem.Loaded(geo, files.fe, files.fa, files.fd);
      LoadedSaveable(Blanks(geo.entries), files.fe);
      fs.lay := lay;
    }
  }

  ghost function Now(fs: FileSystem): (f: Folder)
    requires fs.Valid()
    reads fs, fs.entries, fs.fat, fs.disk
  {
    FolderOf(fs.Snap(), fs.lay, fs.geo.bytes)
  }

  /** What a process that has read the files answers when it looks for a name. */
  method LookUp(geo: Geometry, files: Saved, name: string) returns (found: bool)
    requires geo.bytes >= 1
    ensures found <==> Findable(geo, files, name)
    ensures found ==> OneWord(name)
  {
    FoundIsWord(geo, files, name);
    hide LoadEntries, LoadFat, LoadDisk, OneWord;
    var fs := new FileSystem.Loaded(geo, files.fe, files.fa, files.fd);
    var e := fs.FindFile(name);
    found := e < fs.entries.Length;
    assert fs.entries[..] == LoadedImage(geo, files).entries;
  }

  method Run(fs: FileSystem, cmd: Command) returns (out: Output)
    requires fs.Valid() && Typed(cmd) && Saveable(fs.entries[..])
    modifies fs`lay, fs.entries, fs.fat, fs.disk
    ensures fs.Valid() && Now(fs) == Step(fs.geo, old(Now(fs)), cmd)
    ensures Lasts(fs.geo, old(Now(fs)), cmd) ==> Saveable(fs.entries[..])
    ensures out == Answer(fs.geo, old(Now(fs)), cmd)
  {
    hide Inv, Saveable, Directory, SpecCreate, SpecWrite, SpecRead, SpecDelete, Lists, Word;
    hide Places, ListingOf, Put, Clear;
    match cmd {
      case Create(name) =>
        var r := fs.Create(name);
        out := Creation(r);
      case Write(name, content) =>
        var r := fs.Write(name, content);
        out := Writing(r);
      case Read(name) =>
        var r := fs.Read(name);
        out := Reading(r);
      case Delete(name) =>
        var r := fs.Delete(name);
        out := Deletion(r);
      case List =>
        var r := fs.List();
        out := Listed(r);
    }
  }

  /**
   A process on state files that hold `f`: the answer is that of the folder. What the next process reads back stands
   for the new folder if and only if the command did not create a file whose name is not a single word; such a file
   the next process does not find.
   */
  method Session(geo: Geometry, saved: Option<Saved>, cmd: Command, ghost f: Folder)
    returns (out: Output, saved': Saved)
    requires geo.bytes >= 1 && Stored(geo, saved, f) && Typed(cmd)
    ensures out == Answer(geo, f, cmd)
    ensures Stored(geo, Some(saved'), Step(geo, f, cmd)) <==> Lasts(geo, f, cmd)
    ensures !Lasts(geo, f, cmd) ==> cmd.name in Step(geo, f, cmd).files && !Findable(geo, saved', cmd.name)
  {
    hide Inv, Saveable, Directory, SaveEntries, SaveFat, SaveDisk, Typed, Answer, Step, Lasts, Holds, Findable;
    var fs := Open(geo, saved, f);
    out := Run(fs, cmd);
    var fe, fa, fd := fs.Save();
    saved' := Saved(fe, fa, fd);
    if Lasts(geo, f, cmd) {
      RoundTrip(geo, fs.Snap(), fs.lay);
      assert Holds(geo, saved', fs.lay, Step(geo, f, cmd));
    } else {
      LastsNot(geo, f, cmd);
      NotKept(geo, saved', f, cmd);
    }
  }

  lemma LastsNot(geo: Geometry, f: Folder, cmd: Command)
    requires geo.bytes >= 1 && !Lasts(geo, f, cmd)
    ensures cmd.Create?
  {
  }

  /** A name with a blank in it is accepted, and the next process does not find the file. */
  method BlankInName(geo: Geometry) returns (out: Output, found: bool)
    requires geo.entries >= 1 && geo.blocks >= 1 && geo.bytes >= 1
    ensures out == Creation(Created) && Step(geo, Fresh(geo), Create("a b")).files == map["a b" := ""] && !found
  {
    assert UsedBlocks(map[], geo.bytes) == 0;
    assert "a b"[1] == ' ' && |"a b"| == 3 && '\0' !in "a b";
    var files;
    out, files := Session(geo, None, Create("a b"), Fresh(geo));
    found := LookUp(geo, files, "a b");
  }

  /** All commands of a history up to the `n`-th create only words. */
  ghost predicate LastsUpTo(geo: Geometry, cmds: seq<Command>, n: nat)
    requires geo.bytes >= 1 && n <= |cmds|
  {
    forall i :: 0 <= i < n ==> Lasts(geo, History(geo, cmds[..i]), cmds[i])
  }

  ghost predicate Answered(geo: Geometry, cmds: seq<Command>, outs: seq<Output>)
    requires geo.bytes >= 1
  {
    |outs| <= |cmds| &&
    forall i :: 0 <= i < |outs| ==> outs[i] == Answer(geo, History(geo, cmds[..i]), cmds[i])
  }

  /**
   Every history of processes, from no state files at all, answers as the folder does, up to and including the
   first command that creates a file whose name is not a single word; what is read back after that one does not
   stand for the folder, and the created file is not found. Without such a command the whole history is answered.
   */
  method RunSessions(geo: Geometry, cmds: seq<Command>) returns (outs: seq<Output>, saved: Option<Saved>)
    requires geo.bytes >= 1 && forall i :: 0 <= i < |cmds| ==> Typed(cmds[i])
    ensures |outs| <= |cmds| && Answered(geo, cmds, outs)
    ensures |outs| < |cmds| ==> !LastsUpTo(geo, cmds, |outs|)
    ensures outs != [] ==> LastsUpTo(geo, cmds, |outs| - 1)
    ensures Stored(geo, saved, History(geo, cmds[..|outs|])) <==> LastsUpTo(geo, cmds, |outs|)
    ensures !LastsUpTo(geo, cmds, |outs|) ==>
              && outs != [] && saved.Some? && cmds[|outs| - 1].Create?
              && cmds[|outs| - 1].name in History(geo, cmds[..|outs|]).files
              && !Findable(geo, saved.value, cmds[|outs| - 1].name)
  {
    hide *;
    outs, saved := [], None;
    NoHistory(geo, cmds);
    var k := 0;
    while k < |cmds|
      invariant k == |outs| <= |cmds| && LastsUpTo(geo, cmds, k) && Stored(geo, saved, History(geo, cmds[..k]))
      invariant Answered(geo, cmds, outs)
      invariant k > 0 ==> LastsUpTo(geo, cmds, k - 1)
    {
      ghost var f := History(geo, cmds[..k]);
      var out, files := Session(geo, saved, cmds[k], f);
      LastsIff(geo, f, cmds[k], out);
      OneMoreAnswer(geo, cmds, outs, out);
      outs, saved, k := outs + [out], Some(files), k + 1;
      if out == Creation(Created) && !Word(cmds[k - 1].name) {
        return;
      }
    }
  }

  lemma NoHistory(geo: Geometry, cmds: seq<Command>)
    requires geo.bytes >= 1
    ensures LastsUpTo(geo, cmds, 0) && Answered(geo, cmds, []) && Stored(geo, None, History(geo, cmds[..0]))
  {
  }

  lemma OneMoreAnswer(geo: Geometry, cmds: seq<Command>, outs: seq<Output>, out: Output)
    requires geo.bytes >= 1 && |outs| < |cmds| && Answered(geo, cmds, outs) && LastsUpTo(geo, cmds, |outs|)
    requires out == Answer(geo, History(geo, cmds[..|outs|]), cmds[|outs|])
    ensures Answered(geo, cmds, outs + [out])
    ensures LastsUpTo(geo, cmds, |outs| + 1) <==> Lasts(geo, History(geo, cmds[..|outs|]), cmds[|outs|])
    ensures History(geo, cmds[..|outs| + 1]) == Step(geo, History(geo, cmds[..|outs|]), cmds[|outs|])
  {
    hide *;
    HistoryNext(geo, cmds, |outs|);
    AnsweredNext(geo, cmds, outs, out);
    LastsNext(geo, cmds, |outs|);
  }

  lemma HistoryNext(geo: Geometry, cmds: seq<Command>, n: nat)
    requires geo.bytes >= 1 && n < |cmds|
    ensures History(geo, cmds[..n + 1]) == Step(geo, History(geo, cmds[..n]), cmds[n])
  {
    hide Step;
    assert cmds[..n + 1][..n] == cmds[..n];
  }

  lemma AnsweredNext(geo: Geometry, cmds: seq<Command>, outs: seq<Output>, out: Output)
    requires geo.bytes >= 1 && |outs| < |cmds| && Answered(geo, cmds, outs)
    requires out == Answer(geo, History(geo, cmds[..|outs|]), cmds[|outs|])
    ensures Answered(geo, cmds, outs + [out])
  {
    hide Answer, History;
  }

  lemma LastsNext(geo: Geometry, cmds: seq<Command>, n: nat)
    requires geo.bytes >= 1 && n < |cmds| && LastsUpTo(geo, cmds, n)
    ensures LastsUpTo(geo, cmds, n + 1) <==> Lasts(geo, History(geo, cmds[..n]), cmds[n])
  {
    hide Lasts, History;
  }

  /** The answer tells whether the state files still hold the folder. */
  lemma LastsIff(geo: Geometry, f: Folder, cmd: Command, out: Output)
    requires geo.bytes >= 1 && out == Answer(geo, f, cmd)
    ensures out == Creation(Created) ==> cmd.Create?
    ensures Lasts(geo, f, cmd) <==> !(out == Creation(Created) && !Word(cmd.name))
  {
    hide SpecCreate, SpecWrite, Word, Lists;
  }
}
