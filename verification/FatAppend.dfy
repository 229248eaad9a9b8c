/**
 What holds in the middle of a write: the bytes stored so far are appended to one file, and bytes stored
 plus room left add up to the room there was at the start.
 */
module FatAppend {
  import opened FatLayout
  import opened FatOps
  import opened FatSpec
  import opened Products

  /** The state a write began with. */
  datatype Before = Before(im: Image, lay: Layout, bytes: nat, e: nat)

  ghost predicate Startable(w: Before)
  {
    Inv(w.im, w.lay, w.bytes, -1) && w.e < |w.im.entries| && w.im.entries[w.e].use == 1
  }

  /** Of the directory only the size of file `w.e` may differ. */
  ghost predicate SameNames(w: Before, im: Image)
  {
    && w.e < |im.entries| == |w.im.entries| && |im.fat| == |w.im.fat|
    && im.entries == w.im.entries[w.e := w.im.entries[w.e].(size := im.entries[w.e].size)]
  }

  /** `text` has been appended to file `w.e`; the other files are as before. */
  ghost predicate Appended(w: Before, im: Image, lay: Layout, open: int, text: string)
    requires Startable(w) && Inv(im, lay, w.bytes, open) && SameNames(w, im)
  {
    forall d :: 0 <= d < |im.entries| ==>
      FileContent(im, lay, w.bytes, open, d)
      == FileContent(w.im, w.lay, w.bytes, -1, d) + if d == w.e then text else ""
  }

  ghost predicate Appending(w: Before, im: Image, lay: Layout, open: int, block: nat, text: string, room: int)
  {
    && Startable(w) && Inv(im, lay, w.bytes, open) && (open == -1 || open == w.e) && SameNames(w, im)
    && |lay.chains| == |im.entries| && lay.chains[w.e] != [] && block == lay.chains[w.e][|lay.chains[w.e]| - 1]
    && block < |im.disk| == |im.fat|
    && Appended(w, im, lay, open, text)
    && |text| + (w.bytes - |im.disk[block]|) + Times(FreeCount(im.fat), w.bytes) == room
  }

  lemma AppendStart(w: Before, geo: Geometry, block: nat)
    requires Startable(w) && geo.bytes == w.bytes && geo.blocks == |w.im.fat|
    requires |w.lay.chains| == |w.im.entries| && w.lay.chains[w.e] != []
    requires block == w.lay.chains[w.e][|w.lay.chains[w.e]| - 1]
    ensures w.im.entries[w.e].name in Directory(w.im, w.lay, w.bytes, -1)
    ensures var m := Directory(w.im, w.lay, w.bytes, -1);
            Appending(w, w.im, w.lay, -1, block, "", Room(geo, m, w.im.entries[w.e].name))
  {
    RoomIsRoom(w.im, w.lay, geo, w.e);
    ChainLast(w.im, w.lay, w.bytes, -1, w.e);
    hide Inv, Times, Room, Directory, FileContent;
  }

  /** One more byte: one more stored, one less of room. */
  lemma AppendByte(w: Before, im: Image, lay: Layout, open: int, block: nat, text: string, room: int, c: char)
    requires Appending(w, im, lay, open, block, text, room) && |im.disk[block]| < w.bytes && c != '\n' && c != '\0'
    ensures Appending(w, PutByte(im, w.e, block, c), lay, -1, block, text + [c], room)
  {
    PutByteKeeps(im, lay, w.bytes, open, w.e, block, c);
    var r := PutByte(im, w.e, block, c);
    hide Inv, Times, FreeCount;
    assert Appended(w, r, lay, -1, text + [c]) by {
      forall d | 0 <= d < |r.entries|
        ensures FileContent(r, lay, w.bytes, -1, d)
                == FileContent(w.im, w.lay, w.bytes, -1, d) + if d == w.e then text + [c] else ""
      {
        assert FileContent(im, lay, w.bytes, open, d)
               == FileContent(w.im, w.lay, w.bytes, -1, d) + if d == w.e then text else "";
      }
    }
  }

  /** A new block: a full block's worth of room moves from the free blocks to the file. */
  lemma AppendLink(w: Before, im: Image, lay: Layout, open: int, block: nat, text: string, room: int, nb: nat)
    requires Appending(w, im, lay, open, block, text, room) && |im.disk[block]| == w.bytes
    requires nb < |im.fat| && im.fat[nb] == FREE
    ensures |lay.owner| == |im.fat|
    ensures Appending(w, Extend(im, lay, w.e, nb), ExtendLayout(lay, w.e, nb), w.e, nb, text, room)
    ensures FreeCount(Extend(im, lay, w.e, nb).fat) < FreeCount(im.fat)
  {
    GrowKeeps(im, lay, w.bytes, open, w.e, nb);
    var r, lay' := Extend(im, lay, w.e, nb), ExtendLayout(lay, w.e, nb);
    Distribute(FreeCount(im.fat) - 1, 1, w.bytes);
    hide Inv, Times, FreeCount, FileContent;
    assert Appended(w, r, lay', w.e, text);
  }

  /** A finished write, as a change of the map. */
  lemma AppendEnd(w: Before, im: Image, lay: Layout, block: nat, text: string, room: int)
    requires Appending(w, im, lay, -1, block, text, room)
    ensures var m, name := Directory(w.im, w.lay, w.bytes, -1), w.im.entries[w.e].name;
            name in m && Directory(im, lay, w.bytes, -1) == m[name := m[name] + text]
    ensures |text| <= room
  {
    ChainLast(im, lay, w.bytes, -1, w.e);
    Distribute(FreeCount(im.fat), 0, w.bytes);
    var cs, cs' := Contents(w.im, w.lay, w.bytes, -1), Contents(im, lay, w.bytes, -1);
    FilesHas(w.im.entries, cs, w.e);
    hide Times, FreeCount, Files;
    forall d | 0 <= d < |im.entries| && d != w.e
      ensures cs'[d] == cs[d]
    {
      assert cs[d] + "" == cs[d];
    }
    FilesPut(w.im.entries, cs, im.entries, cs', w.e, w.im.entries[w.e].name);
  }

  lemma AppendNames(w: Before, im: Image)
    requires SameNames(w, im) && Saveable(w.im.entries) && Startable(w)
    ensures Saveable(im.entries)
  {
    hide Word, Inv;
    assert w.im.entries[w.e] != BLANK;
  }
}
