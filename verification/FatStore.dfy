/**
 Saving the tables as text and loading them again. Entries that were never used print only three words,
 so loading shifts their fields; this is harmless because nothing but zeros follows.
 */
module FatStore {
  import opened FatLayout
  import opened FatSpec
  import opened FatText

  // ---------- the formats ----------

  function PrintEntry(en: Entry): (s: string)
  {
    en.name + " " + PrintInt(en.size) + " " + PrintInt(en.start) + " " + PrintInt(en.use) + "\n"
  }

  function SaveEntries(es: seq<Entry>): (s: string)
  {
    if es == [] then "" else PrintEntry(es[0]) + SaveEntries(es[1..])
  }

  /** One `fscanf`: fields are stored one after the other until the first that does not match. */
  function LoadEntry(prior: Entry, s: string): (r: (Entry, string))
  {
    var word := ScanWord(s);
    if word.0 == "" then (prior, word.1) else
    var named := prior.(name := word.0);
    var size := ScanInt(word.1);
    if !size.Got? then (named, Unread(size)) else
    var sized := named.(size := size.value);
    var start := ScanInt(size.rest);
    if !start.Got? then (sized, Unread(start)) else
    var started := sized.(start := start.value);
    var use := ScanInt(start.rest);
    if !use.Got? then (started, Unread(use)) else (started.(use := use.value), use.rest)
  }

  function Unread(scan: IntScan): (s: string)
  {
    if scan.EndOfFile? then "" else scan.rest
  }

  function LoadEntries(prior: seq<Entry>, s: string): (es: seq<Entry>)
    ensures |es| == |prior|
  {
    if prior == [] then [] else
      var r := LoadEntry(prior[0], s);
      [r.0] + LoadEntries(prior[1..], r.1)
  }

  function SaveFat(fat: seq<int>): (s: string)
  {
    if fat == [] then "" else PrintInt(fat[0]) + "\n" + SaveFat(fat[1..])
  }

  function LoadFat(prior: seq<int>, s: string): (fat: seq<int>)
    ensures |fat| == |prior|
  {
    if prior == [] then [] else
      var scan := ScanInt(s);
      [if scan.Got? then scan.value else prior[0]] + LoadFat(prior[1..], Unread(scan))
  }

  function SaveDisk(disk: seq<string>): (s: string)
  {
    if disk == [] then "" else disk[0] + "\n" + SaveDisk(disk[1..])
  }

  /** `fgets` until the end of the file, dropping the last character of each line. */
  function LoadDisk(prior: seq<string>, s: string, bytes: nat): (disk: seq<string>)
    ensures |disk| == |prior|
    decreases prior
  {
    if prior == [] || s == "" then prior else
      var line := GetLine(s, bytes + 1);
      [line[..|line| - 1]] + LoadDisk(prior[1..], s[|line|..], bytes)
  }

  // ---------- FAT and disk ----------

  /** The FAT comes back whatever numbers it holds. */
  lemma {:induction false} FatBack(prior: seq<int>, fat: seq<int>, pre: string)
    requires |prior| == |fat| && AllSpace(pre)
    ensures LoadFat(prior, pre + SaveFat(fat)) == fat
    decreases fat
  {
    if fat != [] {
      hide ScanInt, PrintInt;
      var rest := "\n" + SaveFat(fat[1..]);
      FatBack(prior[1..], fat[1..], "\n");
      hide *;
      NumberFirst(pre, fat);
      IntScans(pre, fat[0], rest);
      LoadNumber(prior, pre + SaveFat(fat), fat[0], rest);
      assert fat == [fat[0]] + fat[1..];
    }
  }

  lemma NumberFirst(pre: string, fat: seq<int>)
    requires fat != []
    ensures pre + SaveFat(fat) == pre + PrintInt(fat[0]) + ("\n" + SaveFat(fat[1..]))
    ensures IsSpace(("\n" + SaveFat(fat[1..]))[0])
  {
    hide PrintInt;
    Regroup(pre, PrintInt(fat[0]), "\n", SaveFat(fat[1..]));
  }

  lemma Regroup(a: string, b: string, c: string, d: string)
    ensures a + (b + c + d) == a + b + (c + d)
  {
  }

  lemma Assoc(a: string, b: string, c: string)
    ensures a + (b + c) == a + b + c
  {
  }

  lemma LoadNumber(prior: seq<int>, s: string, n: int, rest: string)
    requires prior != [] && ScanInt(s) == Got(n, rest)
    ensures LoadFat(prior, s) == [n] + LoadFat(prior[1..], rest)
  {
    hide ScanInt;
  }

  /** The blocks come back because none holds a line break or more than `bytes` characters. */
  lemma {:induction false} DiskBack(prior: seq<string>, disk: seq<string>, bytes: nat)
    requires |prior| == |disk| && forall b :: 0 <= b < |disk| ==> |disk[b]| <= bytes && Clean(disk[b])
    ensures LoadDisk(prior, SaveDisk(disk), bytes) == disk
    decreases disk
  {
    if disk != [] {
      var rest := SaveDisk(disk[1..]);
      var s := disk[0] + "\n" + rest;
      LineGets(disk[0], rest, bytes + 1);
      hide GetLine;
      assert s[|disk[0]| + 1..] == rest;
      assert (disk[0] + "\n")[..|disk[0]|] == disk[0];
      DiskBack(prior[1..], disk[1..], bytes);
    }
  }

  // ---------- entries with a name ----------

  /** The line of a named entry holds its name, size, first block and use bit, in this order. */
  lemma LineFields(en: Entry, pre: string, rest: string)
    requires Word(en.name) && AllSpace(pre)
    ensures var word := ScanWord(pre + PrintEntry(en) + rest);
            var size := ScanInt(word.1);
            && word.0 == en.name && size.Got? && size.value == en.size
            && var start := ScanInt(size.rest);
            && start.Got? && start.value == en.start
            && var use := ScanInt(start.rest);
            use.Got? && use.value == en.use && use.rest == "\n" + rest
  {
    var t3 := "\n" + rest;
    var t2 := " " + PrintInt(en.use) + t3;
    var t1 := " " + PrintInt(en.start) + t2;
    var t0 := " " + PrintInt(en.size) + t1;
    hide PrintInt;
    assert pre + PrintEntry(en) + rest == pre + en.name + t0;
    WordScans(pre, en.name, t0);
    IntScans(" ", en.size, t1);
    IntScans(" ", en.start, t2);
    IntScans(" ", en.use, t3);
    hide ScanWord, ScanInt;
  }

  /** A named entry is read back whatever was there before, up to the line break. */
  lemma NamedBack(prior: Entry, en: Entry, pre: string, rest: string)
    requires Word(en.name) && AllSpace(pre)
    ensures LoadEntry(prior, pre + PrintEntry(en) + rest) == (en, "\n" + rest)
  {
    LineFields(en, pre, rest);
    hide ScanWord, ScanInt, PrintEntry;
    assert en.name != "";
  }

  // ---------- entries never used ----------

  /** Nothing but blanks and separate zeros. */
  ghost predicate ZeroTail(s: string)
  {
    forall i :: 0 <= i < |s| ==> ZeroAt(s, i)
  }

  ghost predicate ZeroAt(s: string, i: nat)
    requires i < |s|
  {
    IsSpace(s[i]) || (s[i] == '0' && i + 1 < |s| && IsSpace(s[i + 1]))
  }

  lemma ZeroSuffix(s: string, k: nat)
    requires ZeroTail(s) && k <= |s|
    ensures ZeroTail(s[k..])
  {
    forall i | 0 <= i < |s[k..]|
      ensures ZeroAt(s[k..], i)
    {
      assert ZeroAt(s, i + k);
    }
  }

  lemma {:induction false} SkipZero(s: string)
    requires ZeroTail(s)
    ensures ZeroTail(SkipSpace(s))
    ensures var t := SkipSpace(s); t == "" || (|t| >= 2 && t[0] == '0' && IsSpace(t[1]))
  {
    if s != "" {
      assert ZeroAt(s, 0);
      if IsSpace(s[0]) {
        ZeroSuffix(s, 1);
        SkipZero(s[1..]);
      }
    }
  }

  lemma ZeroWord(s: string)
    requires ZeroTail(s)
    ensures var r := ScanWord(s); (r.0 == "" && r.1 == "") || (r.0 == "0" && ZeroTail(r.1))
  {
    SkipZero(s);
    var t := SkipSpace(s);
    if t != "" {
      assert t == "0" + t[1..];
      TakesWord("0", t[1..]);
      ZeroSuffix(t, 1);
    }
  }

  lemma ZeroInt(s: string)
    requires ZeroTail(s)
    ensures ScanInt(s) == EndOfFile || (ScanInt(s).Got? && ScanInt(s).value == 0 && ZeroTail(ScanInt(s).rest))
  {
    SkipZero(s);
    var t := SkipSpace(s);
    if t != "" {
      assert t == PrintInt(0) + t[1..] by { assert PrintInt(0) == "0"; }
      NumberScans(0, t[1..]);
      ZeroSuffix(t, 1);
    }
  }

  /** What a never-used entry looks like after loading: still unused and zero, but perhaps called "0". */
  ghost predicate Zeroed(en: Entry)
  {
    (en.name == "" || en.name == "0") && en.size == 0 && en.start == 0 && en.use == 0
  }

  lemma ZeroEntry(s: string)
    requires ZeroTail(s)
    ensures var r := LoadEntry(BLANK, s);
            Zeroed(r.0) && ZeroTail(r.1) && (r.0.name == "" ==> r.0 == BLANK && r.1 == "")
  {
    hide ScanWord, ScanInt, ZeroAt;
    ZeroWord(s);
    var word := ScanWord(s);
    if word.0 != "" {
      ZeroInt(word.1);
      var size := ScanInt(word.1);
      if size.Got? {
        ZeroInt(size.rest);
        var start := ScanInt(size.rest);
        if start.Got? {
          ZeroInt(start.rest);
        }
      }
    }
  }

  ghost predicate AllBlank(es: seq<Entry>)
  {
    forall e :: 0 <= e < |es| ==> es[e] == BLANK
  }

  lemma {:induction false} NothingLeft(prior: seq<Entry>)
    requires AllBlank(prior)
    ensures LoadEntries(prior, "") == prior
  {
    if prior != [] {
      assert LoadEntry(prior[0], "") == (prior[0], "");
      NothingLeft(prior[1..]);
    }
  }

  lemma SaveableCons(en: Entry, es: seq<Entry>)
    requires Word(en.name) && Saveable(es)
    ensures Saveable([en] + es)
  {
    hide Word;
    assert en.name != "" by { NonemptyWord(en.name); }
  }

  lemma BlankSaveable(es: seq<Entry>)
    requires AllBlank(es)
    ensures Saveable(es)
  {
  }

  lemma {:induction false} ZeroEntries(prior: seq<Entry>, s: string)
    requires AllBlank(prior) && ZeroTail(s)
    ensures var r := LoadEntries(prior, s);
            Saveable(r) && forall e :: 0 <= e < |r| ==> Zeroed(r[e])
    decreases prior
  {
    if prior == [] {
      BlankSaveable(prior);
    } else {
      ZeroEntry(s);
      var r := LoadEntry(BLANK, s);
      assert prior[0] == BLANK;
      hide LoadEntry, ZeroTail;
      if r.0.name == "" {
        NothingLeft(prior[1..]);
        assert [BLANK] + prior[1..] == prior;
        BlankSaveable(prior);
      } else {
        assert Word("0");
        ZeroEntries(prior[1..], r.1);
        SaveableCons(r.0, LoadEntries(prior[1..], r.1));
      }
    }
  }

  lemma {:induction false} BlankPrints(es: seq<Entry>, pre: string)
    requires AllBlank(es) && AllSpace(pre)
    ensures ZeroTail(pre + SaveEntries(es))
    decreases es
  {
    if es == [] {
      assert pre + SaveEntries(es) == pre;
    } else {
      var rest := SaveEntries(es[1..]);
      BlankPrints(es[1..], "");
      assert "" + rest == rest;
      BlankLine(pre, rest);
      assert pre + SaveEntries(es) == pre + PrintEntry(BLANK) + rest;
    }
  }

  lemma BlankLine(pre: string, rest: string)
    requires AllSpace(pre) && ZeroTail(rest)
    ensures ZeroTail(pre + PrintEntry(BLANK) + rest)
  {
    assert PrintInt(0) == "0";
    assert PrintEntry(BLANK) == " 0 0 0\n";
    var s := pre + " 0 0 0\n" + rest;
    forall i | 0 <= i < |s|
      ensures ZeroAt(s, i)
    {
      if i >= |pre| + 7 {
        assert ZeroAt(rest, i - |pre| - 7);
      }
    }
  }

  // ---------- the whole directory ----------

  /** Loading restores every entry that ever had a name; the others stay unused and zero. */
  ghost predicate Restored(en: Entry, loaded: Entry)
  {
    if en.name != "" then loaded == en else Zeroed(loaded)
  }

  lemma {:induction false} EntriesBack(prior: seq<Entry>, es: seq<Entry>, pre: string)
    requires |prior| == |es| && AllBlank(prior) && Saveable(es) && AllSpace(pre)
    ensures var r := LoadEntries(prior, pre + SaveEntries(es));
            Saveable(r) && forall e :: 0 <= e < |r| ==> Restored(es[e], r[e])
    decreases es
  {
    if es == [] {
      BlankSaveable(prior);
    } else if es[0].name != "" {
      assert Word(es[0].name);
      var rest := SaveEntries(es[1..]);
      assert pre + SaveEntries(es) == pre + PrintEntry(es[0]) + rest;
      NamedBack(prior[0], es[0], pre, rest);
      SaveableTail(es);
      hide LoadEntry, PrintEntry, Word;
      EntriesBack(prior[1..], es[1..], "\n");
      SaveableCons(es[0], LoadEntries(prior[1..], "\n" + rest));
    } else {
      BlankFromHere(es);
      BlankPrints(es, pre);
      ZeroEntries(prior, pre + SaveEntries(es));
    }
  }

  lemma SaveableTail(es: seq<Entry>)
    requires Saveable(es) && es != []
    ensures Saveable(es[1..])
  {
    hide Word;
  }

  lemma BlankFromHere(es: seq<Entry>)
    requires Saveable(es) && es != [] && es[0].name == ""
    ensures AllBlank(es)
  {
    forall e | 0 <= e < |es|
      ensures es[e] == BLANK
    {
      assert !Word(es[e].name);
    }
  }

  // ---------- which names survive ----------

  lemma {:induction false} WordsHaveNoSpace(s: string)
    ensures forall i :: 0 <= i < |TakeWord(s)| ==> !IsSpace(TakeWord(s)[i])
  {
    if s != "" && !IsSpace(s[0]) {
      WordsHaveNoSpace(s[1..]);
    }
  }

  lemma SaveHead(es: seq<Entry>, e: nat)
    requires e < |es|
    ensures SaveEntries(es[e..]) == PrintEntry(es[e]) + SaveEntries(es[e + 1..])
  {
    assert es[e..][1..] == es[e + 1..];
  }

  /** Named entries are consumed one line each, so loading reaches entry `k` with its own line in front. */
  lemma {:induction false} NamedPrefix(prior: seq<Entry>, es: seq<Entry>, k: nat, pre: string) returns (blank: string)
    requires |prior| == |es| && k < |es| && AllSpace(pre)
    requires forall e :: 0 <= e < k ==> Word(es[e].name)
    ensures AllSpace(blank)
    ensures LoadEntries(prior, pre + SaveEntries(es))[k] == LoadEntry(prior[k], blank + SaveEntries(es[k..])).0
    decreases k
  {
    hide LoadEntry, PrintEntry, Word;
    if k == 0 {
      assert es[0..] == es;
      blank := pre;
    } else {
      var rest := SaveEntries(es[1..]);
      assert pre + SaveEntries(es) == pre + PrintEntry(es[0]) + rest;
      NamedBack(prior[0], es[0], pre, rest);
      blank := NamedPrefix(prior[1..], es[1..], k - 1, "\n");
      assert es[1..][k - 1..] == es[k..];
    }
  }

  /** A loaded name is never empty when there is a line left, and never contains white space. */
  lemma LoadedName(pre: string, en: Entry, rest: string, prior: Entry)
    requires AllSpace(pre) && LoadEntry(prior, pre + PrintEntry(en) + rest).0.name == en.name
    requires prior == BLANK && '\0' !in en.name
    ensures Word(en.name)
  {
    hide PrintEntry;
    var s := pre + PrintEntry(en) + rest;
    var r := ScanWord(s);
    WordsHaveNoSpace(SkipSpace(s));
    if r.0 == "" {
      SizeIsNoSpace(pre, en, rest);
      NoWordMeansBlank(s, |pre + en.name| + 1);
    }
    hide ScanInt;
  }

  /** Behind the name and a blank every line has a digit or a sign. */
  lemma SizeIsNoSpace(pre: string, en: Entry, rest: string)
    ensures var s, k := pre + PrintEntry(en) + rest, |pre + en.name| + 1; k < |s| && !IsSpace(s[k])
  {
    NumberScans(en.size, "");
    var size := PrintInt(en.size);
    hide PrintInt;
    var tail := " " + PrintInt(en.start) + " " + PrintInt(en.use) + "\n";
    assert PrintEntry(en) == en.name + " " + size + tail;
    hide PrintEntry;
    assert (pre + (en.name + " " + size + tail) + rest)[|pre + en.name| + 1] == size[0];
  }

  lemma {:induction false} NoWordMeansBlank(s: string, k: nat)
    requires k < |s| && !IsSpace(s[k])
    ensures ScanWord(s).0 != ""
    decreases k
  {
    if IsSpace(s[0]) {
      NoWordMeansBlank(s[1..], k - 1);
    }
  }

  lemma WordSurvives(es: seq<Entry>, prior: seq<Entry>, e: nat, b: nat, name: string)
    requires Saveable(es) && |prior| == |es| && AllBlank(prior) && Word(name)
    requires e < |es| && forall d :: 0 <= d < e ==> es[d].use != 0
    ensures var es' := es[e := Entry(name, b, 0, 1)];
            LoadEntries(prior, SaveEntries(es'))[e] == es'[e]
  {
    hide LoadEntries, SaveEntries, Word;
    var es' := es[e := Entry(name, b, 0, 1)];
    assert "" + SaveEntries(es') == SaveEntries(es');
    InsertSaveable(es, e, b, name);
    EntriesBack(prior, es', "");
    NonemptyWord(name);
    assert Restored(es'[e], LoadEntries(prior, SaveEntries(es'))[e]);
  }

  lemma NoSpace(s: string)
    ensures AllSpace("") && "" + s == s
  {
  }

  lemma SurvivorIsWord(es: seq<Entry>, prior: seq<Entry>, e: nat)
    requires |prior| == |es| && AllBlank(prior) && e < |es| && '\0' !in es[e].name
    requires forall d :: 0 <= d < e ==> Word(es[d].name)
    requires LoadEntries(prior, SaveEntries(es))[e] == es[e]
    ensures Word(es[e].name)
  {
    assert prior[e] == BLANK;
    hide *;
    NoSpace(SaveEntries(es));
    var blank := NamedPrefix(prior, es, e, "");
    SaveHead(es, e);
    var rest := SaveEntries(es[e + 1..]);
    Assoc(blank, PrintEntry(es[e]), rest);
    LoadedName(blank, es[e], rest, prior[e]);
  }

  /** A file created under `name` is read back as itself exactly when `name` is one nonempty word. */
  lemma NameSurvives(es: seq<Entry>, prior: seq<Entry>, e: nat, b: nat, name: string)
    requires Saveable(es) && |prior| == |es| && AllBlank(prior) && '\0' !in name
    requires e < |es| && forall d :: 0 <= d < e ==> es[d].use != 0
    ensures var es' := es[e := Entry(name, b, 0, 1)];
            LoadEntries(prior, SaveEntries(es'))[e] == es'[e] <==> Word(name)
  {
    hide LoadEntries, SaveEntries;
    var es' := es[e := Entry(name, b, 0, 1)];
    if Word(name) {
      WordSurvives(es, prior, e, b, name);
    }
    if LoadEntries(prior, SaveEntries(es'))[e] == es'[e] {
      SurvivorIsWord(es', prior, e);
    }
  }

  // ---------- what any text loads to ----------

  function Blanks(n: nat): (es: seq<Entry>)
    ensures |es| == n && AllBlank(es)
  {
    seq(n, _ => BLANK)
  }

  function Zeros(n: nat): (fat: seq<int>)
    ensures |fat| == n && forall i :: 0 <= i < n ==> fat[i] == 0
  {
    seq(n, _ => 0)
  }

  function Empties(n: nat): (disk: seq<string>)
    ensures |disk| == n && forall i :: 0 <= i < n ==> disk[i] == ""
  {
    seq(n, _ => "")
  }

  /** Whatever the text, an entry that is loaded as used has a name that is one word. */
  lemma LoadedEntryName(s: string)
    ensures LoadEntry(BLANK, s).0.name != "" ==> OneWord(LoadEntry(BLANK, s).0.name)
    ensures LoadEntry(BLANK, s).0.name == "" ==> LoadEntry(BLANK, s) == (BLANK, "")
  {
    WordsHaveNoSpace(SkipSpace(s));
    hide ScanInt;
  }

  lemma {:induction false} LoadedNames(prior: seq<Entry>, s: string, e: nat)
    requires AllBlank(prior) && e < |prior|
    ensures LoadEntries(prior, s)[e].use != 0 ==> OneWord(LoadEntries(prior, s)[e].name)
    decreases prior
  {
    assert prior[0] == BLANK;
    LoadedEntryName(s);
    hide LoadEntry, OneWord;
    if e > 0 {
      LoadedNames(prior[1..], LoadEntry(BLANK, s).1, e - 1);
    }
  }

  lemma {:induction false} SkipKeeps(s: string)
    requires '\0' !in s
    ensures '\0' !in SkipSpace(s)
  {
    if s != "" && IsSpace(s[0]) {
      SkipKeeps(s[1..]);
    }
  }

  lemma {:induction false} TakeKeeps(s: string)
    requires '\0' !in s
    ensures '\0' !in TakeWord(s)
  {
    if s != "" && !IsSpace(s[0]) {
      TakeKeeps(s[1..]);
    }
  }

  lemma ScanWordKeeps(s: string)
    requires '\0' !in s
    ensures '\0' !in ScanWord(s).0 && '\0' !in ScanWord(s).1
  {
    SkipKeeps(s);
    TakeKeeps(SkipSpace(s));
  }

  lemma ScanIntKeeps(s: string)
    requires '\0' !in s
    ensures '\0' !in Unread(ScanInt(s))
  {
    SkipKeeps(s);
    hide Value, TakeDigits;
  }

  lemma LoadEntryKeeps(s: string)
    requires '\0' !in s
    ensures '\0' !in LoadEntry(BLANK, s).1 && '\0' !in LoadEntry(BLANK, s).0.name
  {
    hide ScanWord, ScanInt;
    ScanWordKeeps(s);
    var word := ScanWord(s);
    ScanIntKeeps(word.1);
    var size := ScanInt(word.1);
    if size.Got? {
      ScanIntKeeps(size.rest);
      var start := ScanInt(size.rest);
      if start.Got? {
        ScanIntKeeps(start.rest);
      }
    }
  }

  /** Whatever the text, the loaded table can be saved and loaded again. */
  lemma {:induction false} LoadedSaveable(prior: seq<Entry>, s: string)
    requires AllBlank(prior) && '\0' !in s
    ensures Saveable(LoadEntries(prior, s))
    decreases prior
  {
    if prior == [] {
      BlankSaveable(prior);
    } else {
      assert prior[0] == BLANK;
      LoadedEntryName(s);
      LoadEntryKeeps(s);
      var r := LoadEntry(BLANK, s);
      hide LoadEntry;
      if r.0.name == "" {
        NothingLeft(prior[1..]);
        assert [BLANK] + prior[1..] == prior;
        BlankSaveable(prior);
      } else {
        assert Word(r.0.name);
        hide Word, OneWord, Saveable;
        LoadedSaveable(prior[1..], r.1);
        SaveableCons(r.0, LoadEntries(prior[1..], r.1));
      }
    }
  }

  // ---------- saved text ----------

  lemma PrintedClean(n: int)
    ensures '\0' !in PrintInt(n)
  {
    var digits := PrintNat(if n < 0 then -n else n);
    forall i | 0 <= i < |digits|
      ensures digits[i] != '\0'
    {
      assert IsDigit(digits[i]);
    }
  }

  lemma {:induction false} SavedClean(es: seq<Entry>)
    requires Saveable(es)
    ensures '\0' !in SaveEntries(es)
  {
    if es != [] {
      EntryClean(es[0]);
      SaveableTail(es);
      hide PrintEntry, Word;
      SavedClean(es[1..]);
    }
  }

  lemma EntryClean(en: Entry)
    requires Word(en.name) || en == BLANK
    ensures '\0' !in PrintEntry(en)
  {
    PrintedClean(en.size);
    PrintedClean(en.start);
    PrintedClean(en.use);
    hide PrintInt;
  }
}
