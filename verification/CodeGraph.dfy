/** The incremental code index and its impact queries (engineering/code_graph.py). Parsing, decoding and
    hashing are parameters; the file system is a finite map from source paths to files. */
module CodeGraph {
  import opened Digraphs
  import opened Sequences

  datatype File = Unreadable | Readable(content: string)

  /** The source files that the indexer visits. */
  type FileSystem = map<string, File>

  datatype Symbol = Symbol(name: string, qualifiedName: string, filePath: string, digest: string)

  datatype Reference = Reference(sourceId: string, target: string, filePath: string)

  datatype Parsed = Parsed(symbols: map<string, Symbol>, references: seq<Reference>)

  datatype Tooling = Tooling(digest: string -> string, decodes: string -> bool, parse: (string, string) -> Parsed)

  /** Digests do not collide, and a parser attributes what it finds to the file it read, under symbol ids
      that no other file uses. */
  ghost predicate Sound(tl: Tooling) {
    && (forall c, d | tl.digest(c) == tl.digest(d) :: c == d)
    && (forall p, c, id | id in tl.parse(p, c).symbols :: tl.parse(p, c).symbols[id].filePath == p)
    && (forall p, c, x | x in tl.parse(p, c).references :: x.filePath == p)
    && (forall p, q, c, d, id | id in tl.parse(p, c).symbols && id in tl.parse(q, d).symbols :: p == q)
  }

  datatype Index = Index(digests: map<string, string>, symbols: map<string, Symbol>, references: seq<Reference>)

  /** The references found in one file, in order. */
  function ReferencesIn(refs: seq<Reference>, p: string): seq<Reference> {
    if refs == [] then []
    else ReferencesIn(refs[..|refs| - 1], p) + if refs[|refs| - 1].filePath == p then [refs[|refs| - 1]] else []
  }

  function Keeping(refs: seq<Reference>, p: string): seq<Reference> {
    if refs == [] then []
    else Keeping(refs[..|refs| - 1], p) + if refs[|refs| - 1].filePath != p then [refs[|refs| - 1]] else []
  }

  lemma {:induction false} ReferencesInConcat(a: seq<Reference>, b: seq<Reference>, p: string)
    ensures ReferencesIn(a + b, p) == ReferencesIn(a, p) + ReferencesIn(b, p)
    decreases |b|
  {
    if b == [] {
      assert a + b == a;
    } else {
      assert (a + b)[..|a + b| - 1] == a + b[..|b| - 1];
      ReferencesInConcat(a, b[..|b| - 1], p);
    }
  }

  lemma {:induction false} ReferencesInKeeping(refs: seq<Reference>, p: string, q: string)
    ensures ReferencesIn(Keeping(refs, p), q) == if q == p then [] else ReferencesIn(refs, q)
  {
    if refs != [] {
      var init, last := refs[..|refs| - 1], refs[|refs| - 1];
      ReferencesInKeeping(init, p, q);
      ReferencesInConcat(Keeping(init, p), if last.filePath != p then [last] else [], q);
      assert [last][..0] == [];
      assert ReferencesIn([last], q) == if last.filePath == q then [last] else [];
    }
  }

  lemma {:induction false} ReferencesInOwn(refs: seq<Reference>, p: string, q: string)
    requires forall x | x in refs :: x.filePath == p
    ensures ReferencesIn(refs, q) == if q == p then refs else []
  {
    if refs != [] {
      var init, last := refs[..|refs| - 1], refs[|refs| - 1];
      assert refs == init + [last];
      assert last in refs;
      ReferencesInOwn(init, p, q);
    }
  }

  lemma {:induction false} CountInFile(refs: seq<Reference>, x: Reference)
    ensures multiset(refs)[x] == multiset(ReferencesIn(refs, x.filePath))[x]
  {
    if refs != [] {
      var init, last := refs[..|refs| - 1], refs[|refs| - 1];
      assert refs == init + [last];
      CountInFile(init, x);
    }
  }

  // ---- What an index says about files ----

  /** The files that can be indexed, with their contents. */
  function Live(fs: FileSystem, tl: Tooling): map<string, string> {
    map p | p in fs && fs[p].Readable? && tl.decodes(fs[p].content) :: fs[p].content
  }

  ghost function DigestsOf(live: map<string, string>, tl: Tooling): map<string, string> {
    map p | p in live :: tl.digest(live[p])
  }

  ghost predicate FromLive(p: string, id: string, live: map<string, string>, tl: Tooling) {
    p in live && id in tl.parse(p, live[p]).symbols
  }

  ghost predicate HoldsSymbols(symbols: map<string, Symbol>, live: map<string, string>, tl: Tooling) {
    && (forall p, id | FromLive(p, id, live, tl) :: id in symbols && symbols[id] == tl.parse(p, live[p]).symbols[id])
    && (forall id | id in symbols :: FromLive(symbols[id].filePath, id, live, tl))
  }

  ghost predicate HoldsReferences(references: seq<Reference>, live: map<string, string>, tl: Tooling) {
    forall p :: ReferencesIn(references, p) == if p in live then tl.parse(p, live[p]).references else []
  }

  ghost predicate Represents(ix: Index, live: map<string, string>, tl: Tooling) {
    && ix.digests == DigestsOf(live, tl)
    && HoldsSymbols(ix.symbols, live, tl)
    && HoldsReferences(ix.references, live, tl)
  }

  /** Indexes of the same files hold the same digests, the same symbols, and the same references as often. */
  lemma RepresentationIsUnique(a: Index, b: Index, live: map<string, string>, tl: Tooling)
    requires Represents(a, live, tl) && Represents(b, live, tl)
    ensures a.digests == b.digests && a.symbols == b.symbols && multiset(a.references) == multiset(b.references)
  {
    forall id
      ensures id in a.symbols <==> id in b.symbols
      ensures id in a.symbols ==> a.symbols[id] == b.symbols[id]
    {
      if id in a.symbols {
        assert FromLive(a.symbols[id].filePath, id, live, tl);
      }
      if id in b.symbols {
        assert FromLive(b.symbols[id].filePath, id, live, tl);
      }
    }
    assert a.symbols == b.symbols;
    forall x
      ensures multiset(a.references)[x] == multiset(b.references)[x]
    {
      CountInFile(a.references, x);
      CountInFile(b.references, x);
    }
  }

  function Removed(ix: Index, p: string): Index {
    var symbols := map id | id in ix.symbols && ix.symbols[id].filePath != p :: ix.symbols[id];
    Index(ix.digests - {p}, symbols, Keeping(ix.references, p))
  }

  function Added(ix: Index, p: string, c: string, tl: Tooling): Index {
    Index(ix.digests[p := tl.digest(c)], ix.symbols + tl.parse(p, c).symbols, ix.references + tl.parse(p, c).references)
  }

  function Replaced(ix: Index, p: string, f: File, tl: Tooling): Index {
    if f.Unreadable? || !tl.decodes(f.content) then Removed(ix, p) else Added(Removed(ix, p), p, f.content, tl)
  }

  lemma RemovedSymbols(symbols: map<string, Symbol>, p: string, live: map<string, string>, tl: Tooling)
    requires Sound(tl) && HoldsSymbols(symbols, live, tl)
    ensures HoldsSymbols(map id | id in symbols && symbols[id].filePath != p :: symbols[id], live - {p}, tl)
  {
    var kept := map id | id in symbols && symbols[id].filePath != p :: symbols[id];
    forall q, id | FromLive(q, id, live - {p}, tl)
      ensures id in kept && kept[id] == tl.parse(q, (live - {p})[q]).symbols[id]
    {
      assert FromLive(q, id, live, tl);
    }
    forall id | id in kept
      ensures FromLive(kept[id].filePath, id, live - {p}, tl)
    {
      assert FromLive(symbols[id].filePath, id, live, tl);
    }
  }

  lemma RemovedReferences(references: seq<Reference>, p: string, live: map<string, string>, tl: Tooling)
    requires HoldsReferences(references, live, tl)
    ensures HoldsReferences(Keeping(references, p), live - {p}, tl)
  {
    forall q
      ensures ReferencesIn(Keeping(references, p), q) ==
              if q in live - {p} then tl.parse(q, (live - {p})[q]).references else []
    {
      ReferencesInKeeping(references, p, q);
    }
  }

  lemma RemovedRepresents(ix: Index, p: string, live: map<string, string>, tl: Tooling)
    requires Sound(tl) && Represents(ix, live, tl)
    ensures Represents(Removed(ix, p), live - {p}, tl)
  {
    RemovedSymbols(ix.symbols, p, live, tl);
    RemovedReferences(ix.references, p, live, tl);
    assert Removed(ix, p).digests == DigestsOf(live - {p}, tl);
  }

  lemma AddedSymbols(symbols: map<string, Symbol>, p: string, c: string, live: map<string, string>, tl: Tooling)
    requires Sound(tl) && HoldsSymbols(symbols, live, tl) && p !in live
    ensures HoldsSymbols(symbols + tl.parse(p, c).symbols, live[p := c], tl)
  {
    var own, all, more := tl.parse(p, c).symbols, symbols + tl.parse(p, c).symbols, live[p := c];
    forall q, id | FromLive(q, id, more, tl)
      ensures id in all && all[id] == tl.parse(q, more[q]).symbols[id]
    {
      if q != p {
        assert FromLive(q, id, live, tl);
        assert id !in own;
      }
    }
    forall id | id in all
      ensures FromLive(all[id].filePath, id, more, tl)
    {
      if id !in own {
        assert FromLive(symbols[id].filePath, id, live, tl);
      }
    }
  }

  lemma AddedReferences(references: seq<Reference>, p: string, c: string, live: map<string, string>, tl: Tooling)
    requires Sound(tl) && HoldsReferences(references, live, tl) && p !in live
    ensures HoldsReferences(references + tl.parse(p, c).references, live[p := c], tl)
  {
    var own := tl.parse(p, c).references;
    forall q
      ensures ReferencesIn(references + own, q) ==
              if q in live[p := c] then tl.parse(q, live[p := c][q]).references else []
    {
      ReferencesInConcat(references, own, q);
      ReferencesInOwn(own, p, q);
    }
  }

  lemma AddedDigests(live: map<string, string>, p: string, c: string, tl: Tooling)
    ensures DigestsOf(live, tl)[p := tl.digest(c)] == DigestsOf(live[p := c], tl)
  {
  }

  lemma AddedRepresents(r: Index, p: string, c: string, live: map<string, string>, tl: Tooling)
    requires Sound(tl) && Represents(r, live, tl) && p !in live
    ensures Represents(Added(r, p, c, tl), live[p := c], tl)
  {
    var a := Added(r, p, c, tl);
    assert HoldsSymbols(a.symbols, live[p := c], tl) by { AddedSymbols(r.symbols, p, c, live, tl); }
    assert HoldsReferences(a.references, live[p := c], tl) by { AddedReferences(r.references, p, c, live, tl); }
    AddedDigests(live, p, c, tl);
  }

  function LiveAfter(live: map<string, string>, p: string, f: File, tl: Tooling): map<string, string> {
    if f.Readable? && tl.decodes(f.content) then live[p := f.content] else live - {p}
  }

  lemma PutBack(live: map<string, string>, p: string, c: string)
    ensures (live - {p})[p := c] == live[p := c] && p !in live - {p}
  {
  }

  lemma ReplacedRepresents(ix: Index, p: string, f: File, live: map<string, string>, tl: Tooling)
    requires Sound(tl) && Represents(ix, live, tl)
    ensures Represents(Replaced(ix, p, f, tl), LiveAfter(live, p, f, tl), tl)
  {
    RemovedRepresents(ix, p, live, tl);
    if f.Readable? && tl.decodes(f.content) {
      AddedRepresents(Removed(ix, p), p, f.content, live - {p}, tl);
      PutBack(live, p, f.content);
    }
  }

  // ---- What refresh has to do ----

  function CurrentDigests(fs: FileSystem, tl: Tooling): map<string, string> {
    map p | p in fs && fs[p].Readable? :: tl.digest(fs[p].content)
  }

  function DeletedFiles(ix: Index, fs: FileSystem, tl: Tooling): set<string> {
    ix.digests.Keys - CurrentDigests(fs, tl).Keys
  }

  function ChangedFiles(ix: Index, fs: FileSystem, tl: Tooling): set<string> {
    set p | p in fs && fs[p].Readable? && !(p in ix.digests && ix.digests[p] == tl.digest(fs[p].content))
  }

  ghost predicate UpToDate(p: string, live: map<string, string>, fs: FileSystem, tl: Tooling) {
    (p in live <==> p in Live(fs, tl)) && (p in live ==> live[p] == Live(fs, tl)[p])
  }

  /** Whatever is neither deleted nor changed is up to date already. */
  lemma UntouchedIsUpToDate(ix: Index, live: map<string, string>, fs: FileSystem, tl: Tooling, p: string)
    requires Sound(tl) && Represents(ix, live, tl) && (forall q | q in live :: tl.decodes(live[q]))
    requires p !in DeletedFiles(ix, fs, tl) && p !in ChangedFiles(ix, fs, tl)
    ensures UpToDate(p, live, fs, tl)
  {
  }

  /** A refresh that follows a refresh of the same files deletes nothing, and looks again only at files
      that are readable but cannot be decoded. */
  lemma SecondRefreshIsQuiet(ix: Index, fs: FileSystem, tl: Tooling)
    requires Sound(tl) && Represents(ix, Live(fs, tl), tl)
    ensures DeletedFiles(ix, fs, tl) == {}
    ensures ChangedFiles(ix, fs, tl) == set p | p in fs && fs[p].Readable? && !tl.decodes(fs[p].content)
  {
  }

  // ---- Impact ----

  /** (f, g): g refers to a name that f defines. */
  ghost function ImpactEdges(ix: Index): (e: Edges)
    ensures forall f, g :: (f, g) in e <==>
      exists id, x ::
        && x in ix.references && id in ix.symbols && x.target == ix.symbols[id].name
        && ix.symbols[id].filePath == f && x.filePath == g
  {
    var e := set id, i | id in ix.symbols && 0 <= i < |ix.references| &&
                         ix.references[i].target == ix.symbols[id].name ::
               (ix.symbols[id].filePath, ix.references[i].filePath);
    assert forall id, x | x in ix.references && id in ix.symbols && x.target == ix.symbols[id].name ::
        exists i :: 0 <= i < |ix.references| && ix.references[i] == x && (ix.symbols[id].filePath, x.filePath) in e;
    e
  }

  ghost function DefinedNames(ix: Index, changed: set<string>): set<string> {
    set id | id in ix.symbols && ix.symbols[id].filePath in changed :: ix.symbols[id].name
  }

  ghost function ReferringTests(ix: Index, changed: set<string>, isTest: string -> bool): set<string> {
    set x | x in ix.references && isTest(x.filePath) && x.target in DefinedNames(ix, changed) :: x.filePath
  }

  ghost function StemTests(ix: Index, changed: set<string>, isTest: string -> bool,
                           sameStem: (string, string) -> bool): set<string> {
    set id | id in ix.symbols && isTest(ix.symbols[id].filePath) &&
             (exists c :: c in changed && sameStem(c, ix.symbols[id].filePath)) :: ix.symbols[id].filePath
  }

  /** What affected_tests picks by its three rules; isTest and sameStem look at paths only. */
  ghost function TestsFor(ix: Index, changed: set<string>, isTest: string -> bool,
                          sameStem: (string, string) -> bool): set<string> {
    (set p | p in Ball(ImpactEdges(ix), changed, 6) && isTest(p))
    + ReferringTests(ix, changed, isTest) + StemTests(ix, changed, isTest, sameStem)
  }

  lemma ReferringTestsAreExact(ix: Index, changed: set<string>, isTest: string -> bool, p: string)
    ensures p in ReferringTests(ix, changed, isTest) <==>
      && isTest(p)
      && exists x, id ::
        && x in ix.references && x.filePath == p && id in ix.symbols
        && ix.symbols[id].filePath in changed && x.target == ix.symbols[id].name
  {
    if exists x, id ::
      && x in ix.references && x.filePath == p && id in ix.symbols
      && ix.symbols[id].filePath in changed && x.target == ix.symbols[id].name
    {
      var x, id :|
        && x in ix.references && x.filePath == p && id in ix.symbols
        && ix.symbols[id].filePath in changed && x.target == ix.symbols[id].name;
      assert x.target in DefinedNames(ix, changed);
    }
  }

  /** p is a test file that a changed file reaches within six steps, that refers to a name defined in a changed file,
      or that defines a symbol and shares the stem of a changed file. */
  ghost predicate IsAffected(ix: Index, changed: set<string>, isTest: string -> bool,
                             sameStem: (string, string) -> bool, p: string) {
    && isTest(p)
    && (|| (exists f | f in changed :: ReachWithin(ImpactEdges(ix), 6, f, p))
        || (exists x, id ::
              && x in ix.references && x.filePath == p && id in ix.symbols
              && ix.symbols[id].filePath in changed && x.target == ix.symbols[id].name)
        || (exists id, c :: id in ix.symbols && ix.symbols[id].filePath == p && c in changed && sameStem(c, p)))
  }

  lemma TestsForIsExact(ix: Index, changed: set<string>, isTest: string -> bool, sameStem: (string, string) -> bool,
                        p: string)
    ensures p in TestsFor(ix, changed, isTest, sameStem) <==> IsAffected(ix, changed, isTest, sameStem, p)
  {
    BallIsBoundedReach(ImpactEdges(ix), changed, 6, p);
    ReferringTestsAreExact(ix, changed, isTest, p);
  }

  lemma TestsAreSelected(ix: Index, changed: set<string>, isTest: string -> bool, sameStem: (string, string) -> bool,
                         tests: seq<string>)
    requires Members(tests) == TestsFor(ix, changed, isTest, sameStem)
    ensures forall p :: p in tests <==> IsAffected(ix, changed, isTest, sameStem, p)
  {
    forall p
      ensures p in tests <==> IsAffected(ix, changed, isTest, sameStem, p)
    {
      assert p in tests <==> p in Members(tests);
      TestsForIsExact(ix, changed, isTest, sameStem, p);
    }
  }

  /** Every test file that the impact search of the default depth finds is an affected test. */
  lemma ImpactedTestsAreAffected(ix: Index, changed: set<string>, isTest: string -> bool,
                                 sameStem: (string, string) -> bool, p: string)
    requires p in Ball(ImpactEdges(ix), changed, Depth(6)) && isTest(p)
    ensures p in TestsFor(ix, changed, isTest, sameStem) && IsAffected(ix, changed, isTest, sameStem, p)
  {
    TestsForIsExact(ix, changed, isTest, sameStem, p);
    BallIsBoundedReach(ImpactEdges(ix), changed, 6, p);
  }

  /** Indexes of the same files give the same answers, however they were arrived at. */
  lemma AnswersAgree(a: Index, b: Index, live: map<string, string>, tl: Tooling, changed: set<string>, maxDepth: int,
                     isTest: string -> bool, sameStem: (string, string) -> bool)
    requires Represents(a, live, tl) && Represents(b, live, tl)
    ensures Ball(ImpactEdges(a), changed, Depth(maxDepth)) == Ball(ImpactEdges(b), changed, Depth(maxDepth))
    ensures TestsFor(a, changed, isTest, sameStem) == TestsFor(b, changed, isTest, sameStem)
  {
    RepresentationIsUnique(a, b, live, tl);
    forall x
      ensures x in a.references <==> x in b.references
    {
      assert x in a.references <==> multiset(a.references)[x] > 0;
      assert x in b.references <==> multiset(b.references)[x] > 0;
    }
    assert ImpactEdges(a) == ImpactEdges(b);
  }

  /** A search at least as deep as there are files finds everything that depends on a change. */
  lemma DeepImpactIsClosure(ix: Index, changed: set<string>, files: set<string>, maxDepth: int, g: string)
    requires changed <= files && maxDepth >= |files| && forall x | x in ix.references :: x.filePath in files
    ensures g in Ball(ImpactEdges(ix), changed, Depth(maxDepth)) <==>
            (g in changed || exists f | f in changed :: Reach(ImpactEdges(ix), f, g))
  {
    DeepBallIsClosure(ImpactEdges(ix), changed, files, Depth(maxDepth), g);
  }

  /** One round of the search in terms of the graph. */
  lemma NextRound(ix: Index, frontier: set<string>, impacted: set<string>, names: set<string>, newFiles: set<string>)
    requires frontier <= impacted && InnerClosed(ImpactEdges(ix), impacted, frontier)
    requires names == set id | id in ix.symbols && ix.symbols[id].filePath in frontier :: ix.symbols[id].name
    requires newFiles == set x | x in ix.references && x.target in names && x.filePath !in impacted :: x.filePath
    ensures impacted + newFiles == impacted + Successors(ImpactEdges(ix), impacted)
    ensures names == {} ==> newFiles == {}
  {
    var e := ImpactEdges(ix);
    forall g | g in newFiles
      ensures g in Successors(e, impacted)
    {
      var x :| x in ix.references && x.target in names && x.filePath == g;
      var id :| id in ix.symbols && ix.symbols[id].filePath in frontier && ix.symbols[id].name == x.target;
      assert (ix.symbols[id].filePath, g) in e;
      assert (ix.symbols[id].filePath, g).1 in Successors(e, impacted);
    }
    forall g | g in Successors(e, impacted)
      ensures g in impacted + newFiles
    {
      var f :| (f, g) in e && f in impacted;
      if f in frontier {
        var id, x :|
          && x in ix.references && id in ix.symbols && x.target == ix.symbols[id].name
          && ix.symbols[id].filePath == f && x.filePath == g;
        assert ix.symbols[id].name in names;
      }
    }
  }

  class CodeGraphIndex {
    var digests: map<string, string>
    var symbols: map<string, Symbol>
    var references: seq<Reference>

    function View(): Index
      reads this
    {
      Index(digests, symbols, references)
    }

    constructor ()
      ensures View() == Index(map[], map[], [])
    {
      digests, symbols, references := map[], map[], [];
    }

    /** The names that frontier files define, and the files not met before that refer to them. */
    method Round(frontier: set<string>, impacted: set<string>) returns (names: set<string>, newFiles: set<string>)
      requires frontier <= impacted && InnerClosed(ImpactEdges(View()), impacted, frontier)
      ensures impacted + newFiles == impacted + Successors(ImpactEdges(View()), impacted)
      ensures names == {} ==> newFiles == {}
    {
      names := set id | id in symbols && symbols[id].filePath in frontier :: symbols[id].name;
      newFiles := set x | x in references && x.target in names && x.filePath !in impacted :: x.filePath;
      NextRound(View(), frontier, impacted, names, newFiles);
    }

    /** Frontier search over names. */
    method Search(changed: set<string>, maxDepth: int) returns (impacted: set<string>)
      ensures impacted == Ball(ImpactEdges(View()), changed, Depth(maxDepth))
    {
      ghost var e := ImpactEdges(View());
      impacted := changed;
      var frontier, depth := changed, 0;
      while frontier != {} && depth < maxDepth
        invariant 0 <= depth <= Depth(maxDepth) && SearchedTo(e, changed, depth, impacted, frontier)
        decreases maxDepth - depth
      {
        depth := depth + 1;
        var names, newFiles := Round(frontier, impacted);
        RoundSearches(e, changed, depth - 1, impacted, frontier, newFiles);
        impacted := impacted + newFiles;
        frontier := newFiles;
        if names == {} {
          break;
        }
      }
      SearchEnds(e, changed, depth, Depth(maxDepth), impacted, frontier);
    }

    /** Exactly the files within maxDepth definition-to-reference steps, sorted. */
    method FilesImpactedBy(changed: set<string>, maxDepth: int) returns (impacted: seq<string>)
      ensures Sorted(impacted) && Members(impacted) == Ball(ImpactEdges(View()), changed, Depth(maxDepth))
      ensures forall g :: g in impacted <==>
              exists f | f in changed :: ReachWithin(ImpactEdges(View()), Depth(maxDepth), f, g)
    {
      var found := Search(changed, maxDepth);
      impacted := SortedList(found);
      forall g
        ensures g in impacted <==> exists f | f in changed :: ReachWithin(ImpactEdges(View()), Depth(maxDepth), f, g)
      {
        assert g in impacted <==> g in Members(impacted);
        BallIsBoundedReach(ImpactEdges(View()), changed, Depth(maxDepth), g);
      }
    }

    /** The test files among the impacted ones, those that refer to a name defined in a changed file, and those
        whose stem contains that of a changed file; sorted. */
    method AffectedTests(changed: set<string>, isTest: string -> bool, sameStem: (string, string) -> bool)
      returns (tests: seq<string>)
      ensures Sorted(tests) && Members(tests) == TestsFor(View(), changed, isTest, sameStem)
      ensures forall p :: p in tests <==> IsAffected(View(), changed, isTest, sameStem, p)
    {
      ghost var ix := View();
      var impacted := Search(changed, 6);
      var defined := set id | id in symbols && symbols[id].filePath in changed :: symbols[id].name;
      assert defined == DefinedNames(ix, changed);
      var referring := set x | x in references && isTest(x.filePath) && x.target in defined :: x.filePath;
      assert referring == ReferringTests(ix, changed, isTest);
      var related := set id | id in symbols && isTest(symbols[id].filePath) &&
                              exists c :: c in changed && sameStem(c, symbols[id].filePath) :: symbols[id].filePath;
      assert related == StemTests(ix, changed, isTest, sameStem);
      tests := SortedList((set p | p in impacted && isTest(p)) + referring + related);
      TestsAreSelected(ix, changed, isTest, sameStem, tests);
    }
  }

  // ---- Build and refresh ----

  method RemoveFile(index: CodeGraphIndex, p: string)
    modifies index
    ensures index.View() == Removed(old(index.View()), p)
  {
    index.digests := index.digests - {p};
    index.symbols := map id | id in index.symbols && index.symbols[id].filePath != p :: index.symbols[id];
    index.references := Keeping(index.references, p);
  }

  method ReplaceFile(index: CodeGraphIndex, p: string, f: File, tl: Tooling)
    modifies index
    ensures index.View() == Replaced(old(index.View()), p, f, tl)
  {
    RemoveFile(index, p);
    if f.Unreadable? || !tl.decodes(f.content) {
      return;
    }
    var parsed := tl.parse(p, f.content);
    index.digests := index.digests[p := tl.digest(f.content)];
    index.symbols := index.symbols + parsed.symbols;
    index.references := index.references + parsed.references;
  }

  ghost predicate SameAt(a: map<string, string>, b: map<string, string>, p: string) {
    (p in a <==> p in b) && (p in a ==> a[p] == b[p])
  }

  /** cur agrees with what the files are now inside done, and with what was indexed outside. */
  ghost predicate Caught(cur: map<string, string>, live: map<string, string>, now: map<string, string>,
                         done: set<string>) {
    forall p :: if p in done then SameAt(cur, now, p) else SameAt(cur, live, p)
  }

  lemma CaughtUp(cur: map<string, string>, live: map<string, string>, now: map<string, string>, done: set<string>)
    requires Caught(cur, live, now, done) && forall p :: p in done || SameAt(live, now, p)
    ensures cur == now
  {
    forall p
      ensures SameAt(cur, now, p)
    {
      assert p in done || (SameAt(cur, live, p) && SameAt(live, now, p));
    }
    forall p
      ensures p in cur <==> p in now
      ensures p in cur ==> cur[p] == now[p]
    {
      assert SameAt(cur, now, p);
    }
  }

  lemma ReplaceCatches(cur: map<string, string>, live: map<string, string>, fs: FileSystem, tl: Tooling,
                       done: set<string>, p: string)
    requires Caught(cur, live, Live(fs, tl), done) && p in fs
    ensures Caught(LiveAfter(cur, p, fs[p], tl), live, Live(fs, tl), done + {p})
  {
    var next, now := LiveAfter(cur, p, fs[p], tl), Live(fs, tl);
    forall q
      ensures if q in done + {p} then SameAt(next, now, q) else SameAt(next, live, q)
    {
      assert if q in done then SameAt(cur, now, q) else SameAt(cur, live, q);
    }
  }

  lemma RemoveCatches(cur: map<string, string>, live: map<string, string>, now: map<string, string>,
                      done: set<string>, p: string)
    requires Caught(cur, live, now, done) && p !in now
    ensures Caught(cur - {p}, live, now, done + {p})
  {
    forall q
      ensures if q in done + {p} then SameAt(cur - {p}, now, q) else SameAt(cur - {p}, live, q)
    {
      assert if q in done then SameAt(cur, now, q) else SameAt(cur, live, q);
    }
  }

  method ReplaceAll(index: CodeGraphIndex, paths: seq<string>, fs: FileSystem, tl: Tooling,
                    ghost cur: map<string, string>, ghost live: map<string, string>, ghost done: set<string>)
    returns (ghost next: map<string, string>)
    requires Sound(tl) && Represents(index.View(), cur, tl) && Caught(cur, live, Live(fs, tl), done)
    requires Members(paths) <= fs.Keys
    modifies index
    ensures Represents(index.View(), next, tl) && Caught(next, live, Live(fs, tl), done + Members(paths))
  {
    next := cur;
    ghost var caught := done;
    for i := 0 to |paths|
      invariant caught == done + Prefix(paths, i)
      invariant Represents(index.View(), next, tl) && Caught(next, live, Live(fs, tl), caught)
    {
      var p := paths[i];
      assert p in Members(paths);
      PrefixGrows(paths, i);
      ghost var before := index.View();
      ReplacedRepresents(before, p, fs[p], next, tl);
      ReplaceCatches(next, live, fs, tl, caught, p);
      ReplaceFile(index, p, fs[p], tl);
      next := LiveAfter(next, p, fs[p], tl);
      caught := caught + {p};
    }
    PrefixIsAll(paths, Members(paths));
  }

  method RemoveAll(index: CodeGraphIndex, paths: seq<string>, tl: Tooling, ghost live: map<string, string>,
                   ghost now: map<string, string>)
    returns (ghost next: map<string, string>)
    requires Sound(tl) && Represents(index.View(), live, tl) && Members(paths) !! now.Keys
    modifies index
    ensures Represents(index.View(), next, tl) && Caught(next, live, now, Members(paths))
  {
    next := live;
    ghost var caught := {};
    for i := 0 to |paths|
      invariant caught == Prefix(paths, i)
      invariant Represents(index.View(), next, tl) && Caught(next, live, now, caught)
    {
      var p := paths[i];
      assert p in Members(paths);
      PrefixGrows(paths, i);
      RemovedRepresents(index.View(), p, next, tl);
      RemoveCatches(next, live, now, caught, p);
      RemoveFile(index, p);
      next := next - {p};
      caught := caught + {p};
    }
    PrefixIsAll(paths, Members(paths));
  }

  method Build(fs: FileSystem, tl: Tooling) returns (index: CodeGraphIndex)
    requires Sound(tl)
    ensures fresh(index) && Represents(index.View(), Live(fs, tl), tl)
  {
    index := new CodeGraphIndex();
    ghost var none: map<string, string> := map[];
    assert index.View().digests == DigestsOf(none, tl);
    var paths := SortedList(fs.Keys);
    ghost var next := ReplaceAll(index, paths, fs, tl, none, none, {});
    CaughtUp(next, none, Live(fs, tl), {} + fs.Keys);
  }

  datatype Delta = Delta(changed: seq<string>, deleted: seq<string>, same: seq<string>, symbolsAdded: nat,
                         symbolsRemoved: nat, referencesAdded: nat, referencesRemoved: nat)

  /** max(0, n) */
  function Gain(n: int): nat {
    if n < 0 then 0 else n
  }

  /** The delta counts net changes only: how many more or fewer symbols and references there are. */
  ghost predicate Reports(delta: Delta, before: Index, after: Index, fs: FileSystem, tl: Tooling) {
    && Sorted(delta.deleted) && Members(delta.deleted) == DeletedFiles(before, fs, tl)
    && Sorted(delta.changed) && Members(delta.changed) == ChangedFiles(before, fs, tl)
    && Sorted(delta.same) && Members(delta.same) == CurrentDigests(fs, tl).Keys - ChangedFiles(before, fs, tl)
    && delta.symbolsAdded - delta.symbolsRemoved == |after.symbols| - |before.symbols|
    && delta.referencesAdded - delta.referencesRemoved == |after.references| - |before.references|
    && (delta.symbolsAdded == 0 || delta.symbolsRemoved == 0)
    && (delta.referencesAdded == 0 || delta.referencesRemoved == 0)
  }

  lemma NetKeys(was: set<string>, now: set<string>)
    ensures |now - was| - |was - now| == |now| - |was|
    ensures |now - was| == 0 <==> now <= was
    ensures |was - now| == 0 <==> was <= now
  {
    assert was == was * now + (was - now) && now == was * now + (now - was);
    assert was <= now <==> was - now == {};
    assert now <= was <==> now - was == {};
  }

  lemma NetReferences(was: multiset<Reference>, now: multiset<Reference>)
    ensures |now - was| - |was - now| == |now| - |was|
    ensures |now - was| == 0 <==> now <= was
    ensures |was - now| == 0 <==> was <= now
  {
    assert was == was * now + (was - now) && now == was * now + (now - was);
    assert was <= now <==> was - now == multiset{};
    assert now <= was <==> now - was == multiset{};
  }

  /** Exactly when the delta counts what came and what went: when nothing went, or nothing came. If some symbols (or
      references) are lost and others gained, the counts are too low. */
  lemma CountsAreTrueIff(delta: Delta, before: Index, after: Index, fs: FileSystem, tl: Tooling)
    requires Reports(delta, before, after, fs, tl)
    ensures var was, now := before.symbols.Keys, after.symbols.Keys;
      delta.symbolsAdded == |now - was| && delta.symbolsRemoved == |was - now| <==> was <= now || now <= was
    ensures var was, now := multiset(before.references), multiset(after.references);
      delta.referencesAdded == |now - was| && delta.referencesRemoved == |was - now| <==> was <= now || now <= was
  {
    NetKeys(before.symbols.Keys, after.symbols.Keys);
    NetReferences(multiset(before.references), multiset(after.references));
    assert |before.symbols.Keys| == |before.symbols| && |after.symbols.Keys| == |after.symbols|;
  }

  method UpdateFiles(index: CodeGraphIndex, deleted: seq<string>, changed: seq<string>, fs: FileSystem, tl: Tooling,
                     ghost live: map<string, string>)
    requires Sound(tl) && Represents(index.View(), live, tl) && forall p | p in live :: tl.decodes(live[p])
    requires Members(deleted) == DeletedFiles(index.View(), fs, tl)
    requires Members(changed) == ChangedFiles(index.View(), fs, tl)
    modifies index
    ensures Represents(index.View(), Live(fs, tl), tl)
  {
    ghost var before, now := index.View(), Live(fs, tl);
    ghost var next := RemoveAll(index, deleted, tl, live, now);
    next := ReplaceAll(index, changed, fs, tl, next, live, Members(deleted));
    forall p
      ensures p in Members(deleted) + Members(changed) || SameAt(live, now, p)
    {
      if p !in Members(deleted) + Members(changed) {
        UntouchedIsUpToDate(before, live, fs, tl, p);
      }
    }
    CaughtUp(next, live, now, Members(deleted) + Members(changed));
  }

  /** Brings an index of the files live up to date with fs: edits, new files, deletions, and files that
      have become unreadable or cannot be decoded any more. */
  method Refresh(index: CodeGraphIndex, fs: FileSystem, tl: Tooling, ghost live: map<string, string>)
    returns (delta: Delta)
    requires Sound(tl) && Represents(index.View(), live, tl) && forall p | p in live :: tl.decodes(live[p])
    modifies index
    ensures Represents(index.View(), Live(fs, tl), tl)
    ensures Reports(delta, old(index.View()), index.View(), fs, tl)
  {
    ghost var before, now := index.View(), Live(fs, tl);
    var current := CurrentDigests(fs, tl);
    var changedFiles := set p | p in current && !(p in index.digests && index.digests[p] == current[p]);
    assert changedFiles == ChangedFiles(before, fs, tl);
    var deleted := SortedList(index.digests.Keys - current.Keys);
    var changed := SortedList(changedFiles);
    var same := SortedList(current.Keys - changedFiles);
    var beforeSymbols, beforeReferences := |index.symbols|, |index.references|;
    UpdateFiles(index, deleted, changed, fs, tl, live);
    var moreSymbols, moreReferences := |index.symbols| - beforeSymbols, |index.references| - beforeReferences;
    delta := Delta(changed, deleted, same, Gain(moreSymbols), Gain(-moreSymbols), Gain(moreReferences),
                   Gain(-moreReferences));
  }

  /** Incremental equals rebuild: after any change of the files, refreshing the old index and building a
      new one give the same digests, the same symbols and the same references as often. */
  method RefreshAgainstRebuild(before: FileSystem, after: FileSystem, tl: Tooling)
    returns (refreshed: Index, rebuilt: Index)
    requires Sound(tl)
    ensures refreshed.digests == rebuilt.digests && refreshed.symbols == rebuilt.symbols
    ensures multiset(refreshed.references) == multiset(rebuilt.references)
    ensures Represents(rebuilt, Live(after, tl), tl)
  {
    var kept := Build(before, tl);
    var delta := Refresh(kept, after, tl, Live(before, tl));
    var built := Build(after, tl);
    refreshed, rebuilt := kept.View(), built.View();
    RepresentationIsUnique(refreshed, rebuilt, Live(after, tl), tl);
  }
}
