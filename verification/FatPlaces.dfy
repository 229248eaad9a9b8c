/**
 The directory table as a row of places, each empty or holding one file. A new file takes the first empty place,
 and a listing goes through the places in order; the map of files alone would not tell either.
 */
module FatPlaces {
  import opened Basics
  import opened FatLayout
  import opened FatSpec

  type Row = seq<Option<string>>

  /** The row a directory table stands for. */
  function Places(es: seq<Entry>): (ps: Row)
    ensures |ps| == |es|
    ensures forall e :: 0 <= e < |es| ==> ps[e] == if es[e].use == 0 then None else Some(es[e].name)
  {
    seq(|es|, e requires 0 <= e < |es| => if es[e].use == 0 then None else Some(es[e].name))
  }

  /** The first empty place, or the length of the row. */
  function FirstFree(ps: Row): (k: nat)
    ensures k <= |ps| && (k < |ps| ==> ps[k].None?)
    ensures forall d :: 0 <= d < k ==> ps[d].Some?
  {
    if ps == [] || ps[0].None? then 0 else
    var k := FirstFree(ps[1..]);
    assert forall d :: 1 <= d < |ps| ==> ps[d] == ps[1..][d - 1];
    k + 1
  }

  function Put(ps: Row, name: string): (r: Row)
    ensures |r| == |ps|
  {
    var k := FirstFree(ps);
    if k < |ps| then ps[k := Some(name)] else ps
  }

  function Clear(ps: Row, name: string): (r: Row)
    ensures |r| == |ps|
    ensures forall e :: 0 <= e < |ps| ==> r[e] == if ps[e] == Some(name) then None else ps[e]
  {
    seq(|ps|, e requires 0 <= e < |ps| => if ps[e] == Some(name) then None else ps[e])
  }

  /** The files in the order of their places. */
  function Names(ps: Row): (names: seq<string>)
  {
    if ps == [] then [] else
      var n := |ps| - 1;
      Names(ps[..n]) + if ps[n].Some? then [ps[n].value] else []
  }

  function SizeOf(m: map<string, string>, name: string): (n: nat)
  {
    if name in m then |m[name]| else 0
  }

  /** The listing that goes with a row and the contents of the files. */
  function ListingOf(ps: Row, m: map<string, string>): (listing: seq<(string, int)>)
    ensures |listing| == |Names(ps)|
    ensures forall i :: 0 <= i < |listing| ==> listing[i] == (Names(ps)[i], SizeOf(m, Names(ps)[i]))
  {
    seq(|Names(ps)|, i requires 0 <= i < |Names(ps)| => (Names(ps)[i], SizeOf(m, Names(ps)[i])))
  }

  // ---------- places and names ----------

  lemma NamesSnoc(ps: Row, p: Option<string>)
    ensures Names(ps + [p]) == Names(ps) + if p.Some? then [p.value] else []
  {
    assert (ps + [p])[..|ps|] == ps;
  }

  lemma {:induction false} NamesConcat(ps: Row, qs: Row)
    ensures Names(ps + qs) == Names(ps) + Names(qs)
  {
    if qs == [] {
      assert ps + qs == ps;
    } else {
      var n := |qs| - 1;
      assert ps + qs == ps + qs[..n] + [qs[n]];
      NamesSnoc(ps + qs[..n], qs[n]);
      NamesConcat(ps, qs[..n]);
    }
  }

  /** Where the files of a listing lie: at increasing places. */
  lemma {:induction false} NamedPlaces(ps: Row) returns (at: seq<nat>)
    ensures |at| == |Names(ps)| && (forall i :: 0 <= i < |at| ==> at[i] < |ps|)
    ensures forall i :: 0 <= i < |at| ==> ps[at[i]] == Some(Names(ps)[i])
    ensures forall i, j :: 0 <= i < j < |at| ==> at[i] < at[j]
  {
    at := [];
    if ps != [] {
      var n := |ps| - 1;
      at := NamedPlaces(ps[..n]);
      if ps[n].Some? {
        at := at + [n];
      }
    }
  }

  /** A listing follows the order of the table. */
  lemma ListingOrder(es: seq<Entry>, m: map<string, string>, i: nat, j: nat) returns (d: nat, e: nat)
    requires i < j < |ListingOf(Places(es), m)|
    ensures d < e < |es| && es[d].use != 0 && es[e].use != 0
    ensures es[d].name == ListingOf(Places(es), m)[i].0 && es[e].name == ListingOf(Places(es), m)[j].0
  {
    var at := NamedPlaces(Places(es));
    d, e := at[i], at[j];
    assert Places(es)[d].Some? && Places(es)[e].Some?;
  }

  lemma {:induction false} NameHasPlace(ps: Row, e: nat)
    requires e < |ps| && ps[e].Some?
    ensures ps[e].value in Names(ps)
  {
    if e < |ps| - 1 {
      NameHasPlace(ps[..|ps| - 1], e);
    }
  }

  lemma {:induction false} AllNamed(ps: Row)
    requires forall e :: 0 <= e < |ps| ==> ps[e].Some?
    ensures |Names(ps)| == |ps| && forall e :: 0 <= e < |ps| ==> Names(ps)[e] == ps[e].value
  {
    if ps != [] {
      AllNamed(ps[..|ps| - 1]);
    }
  }

  function Single(p: Option<string>): (names: seq<string>)
  {
    if p.Some? then [p.value] else []
  }

  /** The names of a row one of whose places holds `p`. */
  lemma NamesAround(ps: Row, k: nat, p: Option<string>)
    requires k < |ps|
    ensures Names(ps[k := p]) == Names(ps[..k]) + Single(p) + Names(ps[k + 1..])
  {
    hide Names;
    assert ps[k := p] == ps[..k] + [p] + ps[k + 1..];
    NamesConcat(ps[..k] + [p], ps[k + 1..]);
    NamesSnoc(ps[..k], p);
  }

  lemma Same(ps: Row, k: nat)
    requires k < |ps|
    ensures ps[k := ps[k]] == ps
  {
  }

  lemma Parts(a: seq<string>, b: seq<string>)
    ensures (a + [] + b)[..|a|] == a && (a + [] + b)[|a|..] == b
  {
  }

  lemma FullBefore(ps: Row, k: nat)
    requires k <= FirstFree(ps)
    ensures k <= |ps| && |Names(ps[..k])| == k
  {
    AllNamed(ps[..k]);
  }

  /** A new file is listed behind those that fill the places before the first empty one. */
  lemma PutNames(ps: Row, name: string)
    requires FirstFree(ps) < |ps|
    ensures var k, names := FirstFree(ps), Names(ps);
            k <= |names| && Names(Put(ps, name)) == names[..k] + [name] + names[k..]
  {
    hide Names, FirstFree;
    var k := FirstFree(ps);
    FullBefore(ps, k);
    Same(ps, k);
    NamesAround(ps, k, None);
    NamesAround(ps, k, Some(name));
    Parts(Names(ps[..k]), Names(ps[k + 1..]));
  }

  /** A file that follows on a deleted one with no empty place before it is listed where that one was. */
  lemma ReplaceNames(ps: Row, k: nat, gone: string, name: string)
    requires Distinct(Names(ps)) && k < FirstFree(ps) && ps[k] == Some(gone)
    ensures k < |Names(ps)| && Names(ps)[k] == gone
    ensures Names(Put(Clear(ps, gone), name)) == Names(ps)[k := name]
  {
    hide Names, FirstFree, Distinct;
    FullBefore(ps, k);
    Same(ps, k);
    NamesAround(ps, k, Some(gone));
    ClearOne(ps, k, gone);
    FirstIs(ps[k := None], k);
    assert ps[k := None][k := Some(name)] == ps[k := Some(name)];
    NamesAround(ps, k, Some(name));
  }

  lemma FirstIs(ps: Row, k: nat)
    requires k < |ps| && ps[k].None? && forall d :: 0 <= d < k ==> ps[d].Some?
    ensures FirstFree(ps) == k
  {
  }

  /** A file is at one place only. */
  lemma ClearOne(ps: Row, k: nat, gone: string)
    requires Distinct(Names(ps)) && k < |ps| && ps[k] == Some(gone)
    ensures Clear(ps, gone) == ps[k := None]
  {
    forall e | 0 <= e < |ps| && e != k
      ensures ps[e] != Some(gone)
    {
      if ps[e] == Some(gone) {
        if e < k {
          TwoPlaces(ps, e, k);
        } else {
          TwoPlaces(ps, k, e);
        }
      }
    }
  }

  lemma TwoPlaces(ps: Row, d: nat, e: nat)
    requires d < e < |ps| && ps[d].Some? && ps[d] == ps[e]
    ensures !Distinct(Names(ps))
  {
    assert ps == ps[..e] + ps[e..];
    NamesConcat(ps[..e], ps[e..]);
    NameHasPlace(ps[..e], d);
    NameHasPlace(ps[e..], 0);
    var a, b := Names(ps[..e]), Names(ps[e..]);
    var x := ps[d].value;
    var i :| 0 <= i < |a| && a[i] == x;
    var j :| 0 <= j < |b| && b[j] == x;
    assert (a + b)[i] == x && (a + b)[|a| + j] == x;
  }

  // ---------- what the file operations do to the row ----------

  lemma PlacesCreate(es: seq<Entry>, e: nat, en: Entry)
    requires e < |es| && es[e].use == 0 && (forall d :: 0 <= d < e ==> es[d].use != 0) && en.use == 1
    ensures Places(es[e := en]) == Put(Places(es), en.name)
  {
    var ps := Places(es);
    assert ps[e].None? && forall d :: 0 <= d < e ==> ps[d].Some?;
    assert FirstFree(ps) == e;
  }

  lemma PlacesDelete(es: seq<Entry>, e: nat)
    requires e < |es| && es[e].use == 1 && NamesDiffer(es)
    requires forall d :: 0 <= d < |es| ==> es[d].use == 0 || es[d].use == 1
    ensures Places(es[e := es[e].(use := 0)]) == Clear(Places(es), es[e].name)
  {
  }

  lemma PlacesMissing(es: seq<Entry>, name: string)
    requires forall e :: 0 <= e < |es| ==> !(es[e].use != 0 && es[e].name == name)
    ensures Clear(Places(es), name) == Places(es)
  {
  }

  lemma PlacesSame(es: seq<Entry>, es': seq<Entry>)
    requires |es| == |es'|
    requires forall e :: 0 <= e < |es| ==> es'[e].use == es[e].use && (es[e].use != 0 ==> es'[e].name == es[e].name)
    ensures Places(es') == Places(es)
  {
  }

  lemma PlacesUnused(es: seq<Entry>)
    requires forall e :: 0 <= e < |es| ==> es[e].use == 0
    ensures Places(es) == Empty(|es|)
  {
  }

  function Empty(n: nat): (ps: Row)
    ensures |ps| == n && forall e :: 0 <= e < n ==> ps[e] == None
  {
    seq(n, _ => None)
  }
}
