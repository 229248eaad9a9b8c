/**
 What a listing tells about the past: files are listed in the order of their places, which is that of their
 creation until a file is deleted; the next new file then takes the first empty place.
 */
module FatHistory {
  import opened Basics
  import opened FatSpec
  import opened FatPlaces
  import opened FatSession

  /** Every file of the map is at one place, and every place holds a file of the map or none. */
  ghost predicate Placed(geo: Geometry, f: Folder)
  {
    && |f.places| == geo.entries && Distinct(Names(f.places))
    && forall x :: x in Names(f.places) <==> x in f.files
  }

  // ---------- counting ----------

  lemma {:induction false} DistinctCount(names: seq<string>, m: map<string, string>)
    requires Distinct(names) && forall x :: x in names <==> x in m
    ensures |names| == |m|
    decreases |names|
  {
    if names == [] {
      assert m.Keys == {};
    } else {
      var n := |names| - 1;
      var x := names[n];
      LastOut(names, m);
      hide Distinct;
      DistinctCount(names[..n], m - {x});
      assert (m - {x}).Keys == m.Keys - {x};
    }
  }

  lemma LastOut(names: seq<string>, m: map<string, string>)
    requires names != [] && Distinct(names) && forall x :: x in names <==> x in m
    ensures var n := |names| - 1;
            && names[n] in m && Distinct(names[..n])
            && forall x :: x in names[..n] <==> x in m - {names[n]}
  {
    var n := |names| - 1;
    assert names == names[..n] + [names[n]];
    assert names[n] in names;
    DistinctInit(names[..n], [names[n]]);
  }

  /** The places are full only when the table is. */
  lemma RoomForOne(geo: Geometry, f: Folder)
    requires Placed(geo, f) && |f.files| < geo.entries
    ensures FirstFree(f.places) < |f.places|
  {
    DistinctCount(Names(f.places), f.files);
    if FirstFree(f.places) == |f.places| {
      AllNamed(f.places);
    }
  }

  // ---------- every history keeps the places right ----------

  lemma Inserted(names: seq<string>, k: nat, x: string)
    requires k <= |names| && Distinct(names) && x !in names
    ensures Distinct(names[..k] + [x] + names[k..])
    ensures forall y :: y in names[..k] + [x] + names[k..] <==> y == x || y in names
  {
    var r := names[..k] + [x] + names[k..];
    assert forall i :: 0 <= i < k ==> r[i] == names[i];
    assert forall i :: k <= i < |names| ==> r[i + 1] == names[i];
    forall i, j | 0 <= i < j < |r|
      ensures r[i] != r[j]
    {
      assert i < k ==> r[i] == names[i];
      assert i > k ==> r[i] == names[i - 1];
      assert j < k ==> r[j] == names[j];
      assert j > k ==> r[j] == names[j - 1];
    }
    assert names == names[..k] + names[k..];
  }

  lemma PutPlaced(geo: Geometry, f: Folder, name: string)
    requires Placed(geo, f) && name !in f.files && |f.files| < geo.entries
    ensures Placed(geo, Folder(f.files[name := ""], Put(f.places, name)))
  {
    RoomForOne(geo, f);
    PutNames(f.places, name);
    Inserted(Names(f.places), FirstFree(f.places), name);
  }

  lemma {:induction false} ClearNames(ps: Row, name: string)
    requires Distinct(Names(ps))
    ensures Distinct(Names(Clear(ps, name)))
    ensures forall x :: x in Names(Clear(ps, name)) <==> x in Names(ps) && x != name
  {
    if ps != [] {
      var n := |ps| - 1;
      var qs := ps[..n];
      assert ps == qs + [ps[n]] && Clear(ps, name) == Clear(qs, name) + [Clear(ps, name)[n]];
      NamesSnoc(qs, ps[n]);
      NamesSnoc(Clear(qs, name), Clear(ps, name)[n]);
      DistinctInit(Names(qs), Single(ps[n]));
      ClearNames(qs, name);
      if ps[n].Some? && ps[n] != Some(name) {
        DistinctSnoc(Names(Clear(qs, name)), ps[n].value);
      }
    }
  }

  lemma DistinctSnoc(a: seq<string>, x: string)
    requires Distinct(a) && x !in a
    ensures Distinct(a + [x])
  {
  }

  lemma DistinctInit(a: seq<string>, b: seq<string>)
    requires Distinct(a + b)
    ensures Distinct(a) && forall x :: x in b ==> x !in a
  {
    var c := a + b;
    assert forall i :: 0 <= i < |a| ==> c[i] == a[i];
    assert forall i :: 0 <= i < |b| ==> c[|a| + i] == b[i];
  }

  lemma StepPlaced(geo: Geometry, f: Folder, cmd: Command)
    requires geo.bytes >= 1 && Placed(geo, f)
    ensures Placed(geo, Step(geo, f, cmd))
  {
    match cmd {
      case Create(name) =>
        if SpecCreate(geo, f.files, name).1.Created? {
          PutPlaced(geo, f, name);
        }
      case Delete(name) =>
        ClearNames(f.places, name);
      case _ =>
    }
  }

  lemma {:induction false} NoNames(n: nat)
    ensures Names(Empty(n)) == []
  {
    if n > 0 {
      NoNames(n - 1);
      assert Empty(n)[..n - 1] == Empty(n - 1);
    }
  }

  lemma HistoryUnfold(geo: Geometry, cmds: seq<Command>)
    requires geo.bytes >= 1 && cmds != []
    ensures History(geo, cmds) == Step(geo, History(geo, cmds[..|cmds| - 1]), cmds[|cmds| - 1])
  {
  }

  /** After every history each file is listed once, with the length of its content. */
  lemma {:induction false} HistoryPlaced(geo: Geometry, cmds: seq<Command>)
    requires geo.bytes >= 1
    ensures Placed(geo, History(geo, cmds))
  {
    if cmds == [] {
      NoNames(geo.entries);
    } else {
      HistoryUnfold(geo, cmds);
      hide Placed, Step, History;
      HistoryPlaced(geo, cmds[..|cmds| - 1]);
      StepPlaced(geo, History(geo, cmds[..|cmds| - 1]), cmds[|cmds| - 1]);
    }
  }

  lemma PlacedLists(geo: Geometry, f: Folder)
    requires Placed(geo, f)
    ensures Lists(f.files, ListingOf(f.places, f.files))
  {
    DistinctCount(Names(f.places), f.files);
    hide Names;
    var names := Names(f.places);
    assert forall i :: 0 <= i < |names| ==> names[i] in names;
  }

  // ---------- without deletions ----------

  ghost predicate CreatesNow(geo: Geometry, f: Folder, cmd: Command)
    requires geo.bytes >= 1
  {
    cmd.Create? && SpecCreate(geo, f.files, cmd.name).1.Created?
  }

  /** The names of the files a history created, in order. */
  ghost function CreatedNames(geo: Geometry, cmds: seq<Command>): (names: seq<string>)
    requires geo.bytes >= 1
  {
    if cmds == [] then [] else
      var n := |cmds| - 1;
      CreatedNames(geo, cmds[..n]) + if CreatesNow(geo, History(geo, cmds[..n]), cmds[n]) then [cmds[n].name] else []
  }

  /** The places are filled from the first on. */
  ghost predicate FilledInOrder(ps: Row, names: seq<string>)
  {
    && |names| <= |ps|
    && (forall i :: 0 <= i < |names| ==> ps[i] == Some(names[i]))
    && (forall i :: |names| <= i < |ps| ==> ps[i] == None)
  }

  lemma FilledPut(ps: Row, names: seq<string>, x: string)
    requires FilledInOrder(ps, names) && FirstFree(ps) < |ps|
    ensures FilledInOrder(Put(ps, x), names + [x])
  {
    hide FirstFree;
    assert |names| < |ps| by {
      assert ps[FirstFree(ps)].None?;
    }
    FirstIs(ps, |names|);
  }

  lemma {:induction false} FilledNames(ps: Row, names: seq<string>)
    requires FilledInOrder(ps, names)
    ensures Names(ps) == names
  {
    if ps != [] {
      var n := |ps| - 1;
      FilledNames(ps[..n], if |names| == |ps| then names[..n] else names);
    }
  }

  lemma StepInOrder(geo: Geometry, f: Folder, cmd: Command, names: seq<string>)
    requires geo.bytes >= 1 && Placed(geo, f) && !cmd.Delete? && FilledInOrder(f.places, names)
    ensures FilledInOrder(Step(geo, f, cmd).places,
                          names + if CreatesNow(geo, f, cmd) then [cmd.name] else [])
  {
    hide FilledInOrder, Placed;
    if CreatesNow(geo, f, cmd) {
      RoomForOne(geo, f);
      FilledPut(f.places, names, cmd.name);
    } else {
      assert names + [] == names;
    }
  }

  lemma {:induction false} CreatedInOrder(geo: Geometry, cmds: seq<Command>)
    requires geo.bytes >= 1 && forall i :: 0 <= i < |cmds| ==> !cmds[i].Delete?
    ensures FilledInOrder(History(geo, cmds).places, CreatedNames(geo, cmds))
  {
    if cmds != [] {
      var n := |cmds| - 1;
      CreatedInOrder(geo, cmds[..n]);
      HistoryPlaced(geo, cmds[..n]);
      HistoryUnfold(geo, cmds);
      StepInOrder(geo, History(geo, cmds[..n]), cmds[n], CreatedNames(geo, cmds[..n]));
    }
  }

  lemma ListAnswer(geo: Geometry, f: Folder)
    requires geo.bytes >= 1 && Placed(geo, f)
    ensures var out, names := Answer(geo, f, List), Names(f.places);
            && out.Listed? && Lists(f.files, out.listing)
            && |out.listing| == |names| && forall i :: 0 <= i < |names| ==> out.listing[i].0 == names[i]
  {
    PlacedLists(geo, f);
    hide Lists, Names;
  }

  /** Without deletions, files are listed in the order of their creation. */
  lemma ListedInCreationOrder(geo: Geometry, cmds: seq<Command>)
    requires geo.bytes >= 1 && forall i :: 0 <= i < |cmds| ==> !cmds[i].Delete?
    ensures var out, names := Answer(geo, History(geo, cmds), List), CreatedNames(geo, cmds);
            && Lists(History(geo, cmds).files, out.listing)
            && |out.listing| == |names| && forall i :: 0 <= i < |names| ==> out.listing[i].0 == names[i]
  {
    hide *;
    CreatedInOrder(geo, cmds);
    HistoryPlaced(geo, cmds);
    ListAnswer(geo, History(geo, cmds));
    FilledNames(History(geo, cmds).places, CreatedNames(geo, cmds));
  }

  // ---------- after a deletion ----------

  /** A created file takes the first empty place: the files before it in the listing fill all places before. */
  lemma CreatedAtFirstFree(geo: Geometry, cmds: seq<Command>, name: string)
    requires geo.bytes >= 1 && CreatesNow(geo, History(geo, cmds), Create(name))
    ensures var ps, k := History(geo, cmds).places, FirstFree(History(geo, cmds).places);
            && k < |ps| && k <= |Names(ps)|
            && Names(History(geo, cmds + [Create(name)]).places) == Names(ps)[..k] + [name] + Names(ps)[k..]
  {
    var f := History(geo, cmds);
    HistoryPlaced(geo, cmds);
    HistoryUnfold(geo, cmds + [Create(name)]);
    assert (cmds + [Create(name)])[..|cmds|] == cmds;
    hide History, Placed;
    RoomForOne(geo, f);
    PutNames(f.places, name);
  }

  /** A file created after a deletion is listed where the deleted one was, if no place before was empty. */
  lemma CreatedInItsPlace(geo: Geometry, cmds: seq<Command>, k: nat, gone: string, name: string)
    requires geo.bytes >= 1
    requires var ps := History(geo, cmds).places; k < FirstFree(ps) && ps[k] == Some(gone)
    requires CreatesNow(geo, History(geo, cmds + [Delete(gone)]), Create(name))
    ensures var names := Names(History(geo, cmds).places);
            && k < |names| && names[k] == gone
            && Names(History(geo, cmds + [Delete(gone)] + [Create(name)]).places) == names[k := name]
  {
    var f := History(geo, cmds);
    var before := cmds + [Delete(gone)];
    HistoryPlaced(geo, cmds);
    HistoryUnfold(geo, before);
    assert before[..|cmds|] == cmds;
    HistoryUnfold(geo, before + [Create(name)]);
    assert (before + [Create(name)])[..|before|] == before;
    hide History;
    ReplaceNames(f.places, k, gone, name);
  }
}
