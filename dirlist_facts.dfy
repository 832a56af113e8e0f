/**
 * What the report of `generate_tree_and_read_files` looks like: which names
 * it lists, in which order, where each entry's line sits, what a file's
 * content block holds, and that it does not depend on the order in which
 * `os.listdir` happens to return a directory's entries.
 */
module DirListFacts {
  import opened Wrappers
  import opened Lists
  import opened PyText
  import opened DirList

  // ---------------------------------------------------------------------------
  // Which names are listed
  // ---------------------------------------------------------------------------

  lemma {:induction false} KeptNamesMembers(items: seq<Entry>, p: Policy, n: string)
    ensures n in KeptNames(items, p) <==> exists e :: e in items && Kept(e, p) && e.name == n
  {
    if items != [] {
      var init := items[..|items| - 1];
      var last := items[|items| - 1];
      KeptNamesMembers(init, p, n);
      SplitLast(items);
      if n in KeptNames(items, p) {
        if n in KeptNames(init, p) {
          var e :| e in init && Kept(e, p) && e.name == n;
          assert e in items;
        } else {
          assert last in items;
        }
      }
      if exists e :: e in items && Kept(e, p) && e.name == n {
        var e :| e in items && Kept(e, p) && e.name == n;
        if e != last {
          assert e in init;
        }
      }
    }
  }

  /** A name is listed exactly when some entry of that name is neither ignored nor dropped by the extension rule. */
  lemma ListedNamesMembers(es: seq<Entry>, p: Policy, n: string)
    ensures n in ListedNames(es, p) <==> exists e :: e in es && e.name !in p.ignoreList && Kept(e, p) && e.name == n
  {
    var vis := VisibleEntries(es, p.ignoreList);
    var kept := KeptNames(vis, p);
    assert n in ListedNames(es, p) <==> n in kept by {
      assert multiset(ListedNames(es, p)) == multiset(kept);
      assert n in ListedNames(es, p) <==> n in multiset(ListedNames(es, p));
      assert n in kept <==> n in multiset(kept);
    }
    KeptNamesMembers(vis, p, n);
  }

  lemma NamesDetermineEntries(es: seq<Entry>, e: Entry, d: Entry)
    requires DistinctNames(es)
    requires e in es && d in es && e.name == d.name
    ensures e == d
  {
    var i :| 0 <= i < |es| && es[i] == e;
    var j :| 0 <= j < |es| && es[j] == d;
  }

  /** In a real directory (distinct names), an entry is listed iff it is not ignored and passes the extension rule. */
  lemma ListedIff(es: seq<Entry>, p: Policy, e: Entry)
    requires DistinctNames(es)
    requires e in es
    ensures e.name in ListedNames(es, p) <==> e.name !in p.ignoreList && Kept(e, p)
  {
    ListedNamesMembers(es, p, e.name);
    if e.name in ListedNames(es, p) {
      var d :| d in es && d.name !in p.ignoreList && Kept(d, p) && d.name == e.name;
      NamesDetermineEntries(es, e, d);
    }
  }

  /** An ignored name never appears, whatever kind of entry carries it. */
  lemma IgnoredNeverListed(es: seq<Entry>, p: Policy, n: string)
    requires n in p.ignoreList
    ensures n !in ListedNames(es, p)
  {
    ListedNamesMembers(es, p, n);
  }

  /** The report never lists its own output file, so it never reads itself back. */
  lemma ReportFileNeverListed(es: seq<Entry>)
    ensures OutputFilename !in ListedNames(es, DefaultPolicy)
  {
    assert IgnoreItems[10] == OutputFilename;
    IgnoredNeverListed(es, DefaultPolicy, OutputFilename);
  }

  /** Directories are listed whatever their name ends in, unless ignored. */
  lemma DirectoriesListed(es: seq<Entry>, p: Policy, n: string, l: Listing)
    requires Dir(n, l) in es
    requires n !in p.ignoreList
    ensures n in ListedNames(es, p)
  {
    ListedNamesMembers(es, p, n);
  }

  /** Under the default configuration an image file is dropped... */
  lemma DefaultPolicyDropsImages(es: seq<Entry>, r: ReadResult)
    requires DistinctNames(es)
    requires File("logo.png", r) in es
    ensures "logo.png" !in ListedNames(es, DefaultPolicy)
  {
    assert EndsWith("logo.png", ExcludedExtensions[0]);
    ListedIff(es, DefaultPolicy, File("logo.png", r));
  }

  /** ... while a directory of the same name would be kept... */
  lemma DefaultPolicyKeepsDirectories(es: seq<Entry>, l: Listing)
    requires Dir("logo.png", l) in es
    ensures "logo.png" in ListedNames(es, DefaultPolicy)
  {
    DirectoriesListed(es, DefaultPolicy, "logo.png", l);
  }

  /** ... and so is a source file. */
  lemma DefaultPolicyKeepsSources(es: seq<Entry>, r: ReadResult)
    requires DistinctNames(es)
    requires File("main.py", r) in es
    ensures "main.py" in ListedNames(es, DefaultPolicy)
  {
    SourceNotExcluded();
    assert "main.py" !in IgnoreItems;
    ListedIff(es, DefaultPolicy, File("main.py", r));
  }

  lemma SourceNotExcluded()
    ensures !EndsWithAny("main.py", ExcludedExtensions)
  {
    forall k | 0 <= k < |ExcludedExtensions| ensures !EndsWith("main.py", ExcludedExtensions[k]) {
      LastCharOfSuffix("main.py", ExcludedExtensions[k]);
    }
  }

  lemma LastCharOfSuffix(s: string, suffix: string)
    requires suffix != [] && s != []
    ensures EndsWith(s, suffix) ==> s[|s| - 1] == suffix[|suffix| - 1]
  {
    if EndsWith(s, suffix) {
      assert s[|s| - |suffix|..][|suffix| - 1] == s[|s| - 1];
    }
  }

  // ---------------------------------------------------------------------------
  // In which order
  // ---------------------------------------------------------------------------

  lemma {:induction false} VisibleDistinct(es: seq<Entry>, ig: seq<string>)
    requires DistinctNames(es)
    ensures DistinctNames(VisibleEntries(es, ig))
  {
    if es != [] {
      var tail := es[1..];
      DistinctTail(es);
      VisibleDistinct(tail, ig);
      if es[0].name !in ig {
        var rest := VisibleEntries(tail, ig);
        assert forall x :: x in rest ==> x in tail;
        HeadNameFresh(es);
        DistinctCons(es[0], rest);
      }
    }
  }

  lemma DistinctTail(es: seq<Entry>)
    requires DistinctNames(es) && es != []
    ensures DistinctNames(es[1..])
  {
    var tail := es[1..];
    forall i, j | 0 <= i < j < |tail| ensures tail[i].name != tail[j].name {
      assert tail[i] == es[i + 1] && tail[j] == es[j + 1];
    }
  }

  /** No later entry shares the first entry's name. */
  lemma HeadNameFresh(es: seq<Entry>)
    requires DistinctNames(es) && es != []
    ensures forall x :: x in es[1..] ==> x.name != es[0].name
  {
    forall x | x in es[1..] ensures x.name != es[0].name {
      var m :| 0 <= m < |es[1..]| && es[1..][m] == x;
      assert es[m + 1] == x;
    }
  }

  lemma DistinctCons(e: Entry, rest: seq<Entry>)
    requires DistinctNames(rest)
    requires forall x :: x in rest ==> x.name != e.name
    ensures DistinctNames([e] + rest)
  {
    var r := [e] + rest;
    forall i, j | 0 <= i < j < |r| ensures r[i].name != r[j].name {
      assert r[j] == rest[j - 1];
      if i > 0 {
        assert r[i] == rest[i - 1];
      }
    }
  }

  lemma {:induction false} KeptDistinct(items: seq<Entry>, p: Policy)
    requires DistinctNames(items)
    ensures NoDuplicates(KeptNames(items, p))
  {
    if items != [] {
      var init := items[..|items| - 1];
      var last := items[|items| - 1];
      assert DistinctNames(init) by {
        forall i, j | 0 <= i < j < |init| ensures init[i].name != init[j].name {
          assert init[i] == items[i] && init[j] == items[j];
        }
      }
      KeptDistinct(init, p);
      if Kept(last, p) {
        var k := KeptNames(init, p);
        var r := k + [last.name];
        assert last.name !in k by {
          forall e | e in init ensures e.name != last.name {
            var m :| 0 <= m < |init| && init[m] == e;
            assert items[m] == e;
          }
          KeptNamesMembers(init, p, last.name);
        }
        forall i, j | 0 <= i < j < |r| ensures r[i] != r[j] {
          if j < |k| {
            assert r[i] == k[i] && r[j] == k[j];
          } else {
            assert r[i] == k[i] && k[i] in k;
          }
        }
      }
    }
  }

  /** The listed names are sorted; in a real directory every name appears once, in strictly increasing code-point order. */
  lemma ListedStrictlyAscending(es: seq<Entry>, p: Policy)
    requires DistinctNames(es)
    ensures Ascending(ListedNames(es, p))
    ensures NoDuplicates(ListedNames(es, p))
    ensures StrictlyAscending(ListedNames(es, p))
  {
    var kept := KeptNames(VisibleEntries(es, p.ignoreList), p);
    var sorted := ListedNames(es, p);
    VisibleDistinct(es, p.ignoreList);
    KeptDistinct(VisibleEntries(es, p.ignoreList), p);
    forall x ensures multiset(sorted)[x] <= 1 {
      NoDuplicatesCount(kept, x);
    }
    NoDuplicatesFromCount(sorted);
    AscendingDistinct(sorted);
  }

  // ---------------------------------------------------------------------------
  // Where each entry's line sits
  // ---------------------------------------------------------------------------

  lemma {:induction false} RenderBetweenSplit(names: seq<string>, es: seq<Entry>, prefix: string, p: Policy, lo: nat, mid: nat, hi: nat)
    requires lo <= mid <= hi <= |names|
    ensures RenderBetween(names, es, prefix, p, lo, hi)
         == RenderBetween(names, es, prefix, p, lo, mid) + RenderBetween(names, es, prefix, p, mid, hi)
    decreases hi
  {
    if mid < hi {
      RenderBetweenSplit(names, es, prefix, p, lo, mid, hi - 1);
    }
  }

  /** Each entry's block is the header line followed by its subtree or its content. */
  lemma ItemStartsWithHeader(names: seq<string>, k: nat, es: seq<Entry>, prefix: string, p: Policy)
    requires k < |names|
    ensures RenderItem(names, k, es, prefix, p) != []
    ensures RenderItem(names, k, es, prefix, p)[0] == prefix + Pointer(k, |names|) + names[k]
  {
  }

  /** Pre-order: the blocks of the earlier names, then the block of `names[k]`, then the later ones. */
  lemma BlockPlacement(names: seq<string>, es: seq<Entry>, prefix: string, p: Policy, k: nat)
    requires k < |names|
    ensures RenderBetween(names, es, prefix, p, 0, |names|)
         == RenderBetween(names, es, prefix, p, 0, k) + RenderItem(names, k, es, prefix, p)
            + RenderBetween(names, es, prefix, p, k + 1, |names|)
  {
    RenderBetweenSplit(names, es, prefix, p, 0, k, |names|);
    RenderBetweenSplit(names, es, prefix, p, k, k + 1, |names|);
    RenderBetweenOne(names, es, prefix, p, k);
  }

  lemma RenderBetweenOne(names: seq<string>, es: seq<Entry>, prefix: string, p: Policy, k: nat)
    requires k < |names|
    ensures RenderBetween(names, es, prefix, p, k, k + 1) == RenderItem(names, k, es, prefix, p)
  {
    assert RenderBetween(names, es, prefix, p, k, k + 1)
        == RenderBetween(names, es, prefix, p, k, k) + RenderItem(names, k, es, prefix, p);
  }

  /** The line of `names[k]` carries `└── ` exactly when it is the last survivor, `├── ` otherwise. */
  lemma HeaderLine(es: seq<Entry>, prefix: string, p: Policy, k: nat)
    requires k < |ListedNames(es, p)|
    ensures var names := ListedNames(es, p);
      var at := |RenderBetween(names, es, prefix, p, 0, k)|;
      at < |RenderListing(Listed(es), prefix, p)|
      && RenderListing(Listed(es), prefix, p)[at]
         == prefix + (if k == |names| - 1 then Elbow else Tee) + names[k]
  {
    var names := ListedNames(es, p);
    assert RenderListing(Listed(es), prefix, p) == RenderBetween(names, es, prefix, p, 0, |names|);
    BlockPlacement(names, es, prefix, p, k);
    ItemStartsWithHeader(names, k, es, prefix, p);
  }

  lemma {:induction false} RenderBetweenLength(names: seq<string>, es: seq<Entry>, prefix: string, p: Policy, lo: nat, hi: nat)
    requires hi <= |names|
    ensures lo <= hi ==> |RenderBetween(names, es, prefix, p, lo, hi)| >= hi - lo
    decreases hi
  {
    if lo < hi {
      RenderBetweenLength(names, es, prefix, p, lo, hi - 1);
      ItemStartsWithHeader(names, hi - 1, es, prefix, p);
    }
  }

  /** A readable directory renders to nothing exactly when nothing in it survives the filters. */
  lemma EmptyIff(es: seq<Entry>, prefix: string, p: Policy)
    ensures RenderListing(Listed(es), prefix, p) == [] <==> ListedNames(es, p) == []
    ensures |RenderListing(Listed(es), prefix, p)| >= |ListedNames(es, p)|
  {
    var names := ListedNames(es, p);
    RenderBetweenLength(names, es, prefix, p, 0, |names|);
  }

  // ---------------------------------------------------------------------------
  // What a file's content block holds
  // ---------------------------------------------------------------------------

  lemma {:induction false} ContentLinesShape(ls: seq<string>, prefix: string)
    ensures |ContentLines(ls, prefix)| == |ls|
    ensures forall k :: 0 <= k < |ls| ==> ContentLines(ls, prefix)[k] == prefix + ContentBar + ls[k]
  {
    if ls != [] {
      var init := ls[..|ls| - 1];
      ContentLinesShape(init, prefix);
      forall k | 0 <= k < |ls| ensures ContentLines(ls, prefix)[k] == prefix + ContentBar + ls[k] {
        if k < |init| {
          assert init[k] == ls[k];
        }
      }
    }
  }

  /** A file that is empty or all whitespace gets a single placeholder line. */
  lemma BlankFileIsOneLine(content: string, prefix: string)
    requires forall k :: 0 <= k < |content| ==> IsSpace(content[k])
    ensures RenderContent(Text(content), prefix) == [prefix + "    (文件为空)"]
  {
    StripEmptyIff(content);
  }

  /** Any other file gets a start marker, one `│ ` line per line of `splitlines()`, and an end marker. */
  lemma TextFileShape(content: string, prefix: string)
    requires exists k :: 0 <= k < |content| && !IsSpace(content[k])
    ensures var r := RenderContent(Text(content), prefix);
      var ls := SplitLines(content);
      |r| == |ls| + 2
      && r[0] == prefix + ContentStart
      && r[|r| - 1] == prefix + ContentEnd
      && forall k :: 0 <= k < |ls| ==> r[k + 1] == prefix + ContentBar + ls[k]
  {
    StripEmptyIff(content);
    var ls := SplitLines(content);
    ContentLinesShape(ls, prefix);
    var r := RenderContent(Text(content), prefix);
    assert r == [prefix + ContentStart] + ContentLines(ls, prefix) + [prefix + ContentEnd];
    forall k | 0 <= k < |ls| ensures r[k + 1] == prefix + ContentBar + ls[k] {
      assert r[k + 1] == ContentLines(ls, prefix)[k];
    }
  }

  /** A text made of the lines `ls` (each ended by a newline) is reproduced line for line. */
  lemma FileLinesReproduced(ls: seq<string>, prefix: string)
    requires forall j :: 0 <= j < |ls| ==> NoLineBoundary(ls[j])
    requires exists j, k :: 0 <= j < |ls| && 0 <= k < |ls[j]| && !IsSpace(ls[j][k])
    ensures RenderContent(Text(Terminated(ls)), prefix)
         == [prefix + ContentStart] + ContentLines(ls, prefix) + [prefix + ContentEnd]
  {
    SplitLinesOfTerminated(ls);
    var j, k :| 0 <= j < |ls| && 0 <= k < |ls[j]| && !IsSpace(ls[j][k]);
    TerminatedContains(ls, j, k);
    StripEmptyIff(Terminated(ls));
  }

  lemma {:induction false} TerminatedContains(ls: seq<string>, j: nat, k: nat)
    requires j < |ls| && k < |ls[j]|
    ensures ls[j][k] in Terminated(ls)
  {
    assert Terminated(ls) == ls[0] + "\n" + Terminated(ls[1..]);
    if j == 0 {
      assert Terminated(ls)[k] == ls[0][k];
    } else {
      TerminatedContains(ls[1..], j - 1, k);
      assert ls[1..][j - 1] == ls[j];
    }
  }

  // ---------------------------------------------------------------------------
  // Independence of the listing order
  // ---------------------------------------------------------------------------

  lemma StrictlyAscendingUnique(a: seq<string>, b: seq<string>)
    requires Ascending(a) && NoDuplicates(a)
    requires Ascending(b) && NoDuplicates(b)
    requires forall x :: x in a <==> x in b
    ensures a == b
  {
    assert multiset(a) == multiset(b) by {
      forall x ensures multiset(a)[x] == multiset(b)[x] {
        NoDuplicatesCount(a, x);
        NoDuplicatesCount(b, x);
      }
    }
    AscendingUnique(a, b);
  }

  lemma FindSame(es1: seq<Entry>, es2: seq<Entry>, name: string)
    requires DistinctNames(es1) && DistinctNames(es2)
    requires forall e :: e in es1 <==> e in es2
    ensures Find(es1, name) == Find(es2, name)
  {
    var f1, f2 := Find(es1, name), Find(es2, name);
    if f1.Some? && f2.Some? {
      NamesDetermineEntries(es1, f1.value, f2.value);
    }
  }

  lemma {:induction false} RenderBetweenSame(names: seq<string>, es1: seq<Entry>, es2: seq<Entry>, prefix: string, p: Policy, hi: nat)
    requires hi <= |names|
    requires DistinctNames(es1) && DistinctNames(es2)
    requires forall e :: e in es1 <==> e in es2
    ensures RenderBetween(names, es1, prefix, p, 0, hi) == RenderBetween(names, es2, prefix, p, 0, hi)
  {
    if hi > 0 {
      RenderBetweenSame(names, es1, es2, prefix, p, hi - 1);
      FindSame(es1, es2, names[hi - 1]);
    }
  }

  /** The report of a directory does not depend on the order `os.listdir` returns its own entries in
      (the listings of its subdirectories are taken as given). */
  lemma ListingOrderIrrelevant(es1: seq<Entry>, es2: seq<Entry>, prefix: string, p: Policy)
    requires DistinctNames(es1) && DistinctNames(es2)
    requires forall e :: e in es1 <==> e in es2
    ensures RenderListing(Listed(es1), prefix, p) == RenderListing(Listed(es2), prefix, p)
  {
    var n1, n2 := ListedNames(es1, p), ListedNames(es2, p);
    ListedStrictlyAscending(es1, p);
    ListedStrictlyAscending(es2, p);
    forall x ensures x in n1 <==> x in n2 {
      ListedNamesMembers(es1, p, x);
      ListedNamesMembers(es2, p, x);
    }
    StrictlyAscendingUnique(n1, n2);
    RenderBetweenSame(n1, es1, es2, prefix, p, |n1|);
  }
}
