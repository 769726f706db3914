/**
 * The model loader: picking the root file out of a dropped file map, dispatching
 * on its type, and the per-load URL modifier that redirects the references a
 * format parser emits to object URLs over the dropped files. The three.js
 * parsers themselves are abstract: a pipeline is given the references its
 * parser asks the modifier to rewrite, in order, and the parser's outcome.
 */
module Loader {
  import opened Wrappers
  import opened JsStrings
  import opened BlobUrls
  import opened Three
  import SceneManager

  /** `this.FILETYPES`: GLB is 0, OBJ is 1, FBX is 2. */
  datatype FileType = GLB | OBJ | FBX

  /** One `[path, file]` pair of the dropped file map, in iteration order. */
  datatype Entry = Entry(path: string, file: File)

  /** A JavaScript `Map` never holds a key twice. */
  predicate UniqueKeys(fileMap: seq<Entry>) {
    forall i, j :: 0 <= i < j < |fileMap| ==> fileMap[i].path != fileMap[j].path
  }

  // ---------------------------------------------------------------------------
  // Classifying file names: the three regular expressions of `load`.

  /** `/\.(gltf|glb)$/` */
  predicate MatchesGltf(name: string) {
    EndsWith(name, ".gltf") || EndsWith(name, ".glb")
  }

  /** `/\.(obj|mtl|png)$/` */
  predicate MatchesObj(name: string) {
    EndsWith(name, ".obj") || EndsWith(name, ".mtl") || EndsWith(name, ".png")
  }

  /** `/\.(fbx)$/` */
  predicate MatchesFbx(name: string) {
    EndsWith(name, ".fbx")
  }

  /** No name matches two groups: the six suffixes end in six different letters. */
  lemma SuffixGroupsDisjoint(name: string)
    ensures !(MatchesGltf(name) && MatchesObj(name))
    ensures !(MatchesGltf(name) && MatchesFbx(name))
    ensures !(MatchesObj(name) && MatchesFbx(name))
  {
    if EndsWith(name, ".gltf") { EndsWithLast(name, ".gltf"); }
    if EndsWith(name, ".glb") { EndsWithLast(name, ".glb"); }
    if EndsWith(name, ".obj") { EndsWithLast(name, ".obj"); }
    if EndsWith(name, ".mtl") { EndsWithLast(name, ".mtl"); }
    if EndsWith(name, ".png") { EndsWithLast(name, ".png"); }
    if EndsWith(name, ".fbx") { EndsWithLast(name, ".fbx"); }
  }

  /**
   * The type one entry of the scan assigns, if any. The three tests run in
   * sequence and the last that matches would win; as the groups are disjoint,
   * each type is chosen exactly when its own group matches.
   */
  function Classify(name: string): (r: Option<FileType>)
    ensures r == Some(GLB) <==> MatchesGltf(name)
    ensures r == Some(OBJ) <==> MatchesObj(name)
    ensures r == Some(FBX) <==> MatchesFbx(name)
  {
    SuffixGroupsDisjoint(name);
    if MatchesFbx(name) then Some(FBX)
    else if MatchesObj(name) then Some(OBJ)
    else if MatchesGltf(name) then Some(GLB)
    else None
  }

  /** `path.replace(file.name, "")`: the key with the first occurrence of the file name cut out. */
  function RootPathOf(e: Entry): string {
    RemoveFirst(e.path, e.file.name)
  }

  /** What a matching entry sets: `rootFile`, `rootPath` and `this.filetype`. */
  datatype Root = Root(file: File, path: string, kind: FileType)

  function RootOf(e: Entry): Option<Root> {
    match Classify(e.file.name)
    case None => None
    case Some(k) => Some(Root(e.file, RootPathOf(e), k))
  }

  /** The last present value of a sequence of optional values. */
  function LastSome<T>(xs: seq<Option<T>>): Option<T>
    decreases |xs|
  {
    if xs == [] then None
    else if xs[|xs| - 1].Some? then xs[|xs| - 1]
    else LastSome(xs[..|xs| - 1])
  }

  /** Position `i` holds a value and no later position does. */
  predicate IsLastSome<T>(xs: seq<Option<T>>, i: int) {
    0 <= i < |xs| && xs[i].Some? && forall j :: i < j < |xs| ==> xs[j].None?
  }

  lemma {:induction false} LastSomeNone<T>(xs: seq<Option<T>>)
    ensures LastSome(xs).None? <==> forall i :: 0 <= i < |xs| ==> xs[i].None?
    decreases |xs|
  {
    if xs != [] {
      var init := xs[..|xs| - 1];
      LastSomeNone(init);
      assert forall i :: 0 <= i < |init| ==> init[i] == xs[i];
    }
  }

  lemma {:induction false} LastSomeAt<T>(xs: seq<Option<T>>, i: int)
    requires IsLastSome(xs, i)
    ensures LastSome(xs) == xs[i]
    decreases |xs|
  {
    if i < |xs| - 1 {
      var init := xs[..|xs| - 1];
      assert forall j :: 0 <= j < |init| ==> init[j] == xs[j];
      assert IsLastSome(init, i);
      LastSomeAt(init, i);
    }
  }

  lemma {:induction false} LastSomeIsLast<T>(xs: seq<Option<T>>)
    requires LastSome(xs).Some?
    ensures exists i :: IsLastSome(xs, i) && xs[i] == LastSome(xs)
    decreases |xs|
  {
    var n := |xs|;
    if xs[n - 1].None? {
      var init := xs[..n - 1];
      LastSomeIsLast(init);
      var i :| IsLastSome(init, i) && init[i] == LastSome(init);
      assert forall j :: 0 <= j < |init| ==> init[j] == xs[j];
      assert IsLastSome(xs, i);
    } else {
      assert IsLastSome(xs, n - 1);
    }
  }

  /** What each entry of the scan would set, in iteration order. */
  function Roots(fileMap: seq<Entry>): seq<Option<Root>>
  {
    seq(|fileMap|, i requires 0 <= i < |fileMap| => RootOf(fileMap[i]))
  }

  /** The root selection, defined from the end of the scan: the last entry that matches. */
  function LastRoot(fileMap: seq<Entry>): Option<Root> {
    LastSome(Roots(fileMap))
  }

  /** One more entry of the scan overrides the selection exactly when it matches. */
  lemma LastRootSnoc(fileMap: seq<Entry>, i: nat)
    requires i < |fileMap|
    ensures LastRoot(fileMap[..i + 1]) ==
              if RootOf(fileMap[i]).Some? then RootOf(fileMap[i]) else LastRoot(fileMap[..i])
  {
    var rs := Roots(fileMap[..i + 1]);
    assert rs[..i] == Roots(fileMap[..i]);
    assert rs[i] == RootOf(fileMap[i]);
  }

  /** Nothing is selected exactly when no entry's name matches a group. */
  lemma LastRootNone(fileMap: seq<Entry>)
    ensures LastRoot(fileMap).None? <==> forall i :: 0 <= i < |fileMap| ==> RootOf(fileMap[i]).None?
  {
    var rs := Roots(fileMap);
    assert forall i :: 0 <= i < |fileMap| ==> rs[i] == RootOf(fileMap[i]);
    LastSomeNone(rs);
  }

  /** Entry `i` matches and no later entry does. */
  predicate IsLastMatch(fileMap: seq<Entry>, i: int) {
    && 0 <= i < |fileMap|
    && RootOf(fileMap[i]).Some?
    && forall j :: i < j < |fileMap| ==> RootOf(fileMap[j]).None?
  }

  /** A matching entry that no later entry overrides is the one selected. */
  lemma LastRootAt(fileMap: seq<Entry>, i: int)
    requires IsLastMatch(fileMap, i)
    ensures LastRoot(fileMap) == RootOf(fileMap[i])
  {
    var rs := Roots(fileMap);
    assert forall j :: 0 <= j < |fileMap| ==> rs[j] == RootOf(fileMap[j]);
    assert IsLastSome(rs, i);
    LastSomeAt(rs, i);
  }

  /** Whatever is selected comes from a matching entry that no later entry overrides. */
  lemma LastRootIsLastMatch(fileMap: seq<Entry>)
    requires LastRoot(fileMap).Some?
    ensures exists i :: IsLastMatch(fileMap, i) && RootOf(fileMap[i]) == LastRoot(fileMap)
  {
    var rs := Roots(fileMap);
    assert forall j :: 0 <= j < |fileMap| ==> rs[j] == RootOf(fileMap[j]);
    LastSomeIsLast(rs);
    var i :| IsLastSome(rs, i) && rs[i] == LastRoot(fileMap);
    assert IsLastMatch(fileMap, i);
  }

  /**
   * The cut is at the first occurrence: when the file name already occurs in the
   * directory part of the key, that occurrence is cut out and the trailing name
   * stays, so the root path is not the directory.
   */
  lemma RootPathCutsFirstOccurrence(p: string, q: string, name: string, bytes: seq<bv8>)
    requires forall j :: 0 <= j < |p| ==> !OccursAt(p + name + q + name, name, j)
    ensures RootPathOf(Entry(p + name + q + name, File(name, bytes))) == p + q + name
  {
    assert p + name + q + name == p + name + (q + name);
    RemoveFirstAt(p, name, q + name);
  }

  // ---------------------------------------------------------------------------
  // Resolving references: the URL modifier of `loadGLB` and `loadFBX`.

  /** `rootPath + decodeURI(url).replace(baseURL, "").replace(/^(\.?\/)/, "")`, given the decoded URL. */
  function NormalizedKey(rootPath: string, baseURL: string, decoded: string): string {
    rootPath + StripDotSlash(RemoveFirst(decoded, baseURL))
  }

  /** The key starts with the root path, and what follows is never longer than the decoded URL. */
  lemma NormalizedKeyShape(rootPath: string, baseURL: string, decoded: string)
    ensures StartsWith(NormalizedKey(rootPath, baseURL, decoded), rootPath)
    ensures |NormalizedKey(rootPath, baseURL, decoded)| <= |rootPath| + |decoded|
  {
    var rest := StripDotSlash(RemoveFirst(decoded, baseURL));
    assert (rootPath + rest)[..|rootPath|] == rootPath;
  }

  /** A reference below the loader's base URL resolves to the root path plus what follows "./" or "/". */
  lemma KeyOfBaseRelative(rootPath: string, baseURL: string, rest: string)
    ensures NormalizedKey(rootPath, baseURL, baseURL + "./" + rest) == rootPath + rest
    ensures NormalizedKey(rootPath, baseURL, baseURL + "/" + rest) == rootPath + rest
    ensures !StartsWith(rest, "./") && !StartsWith(rest, "/") ==>
              NormalizedKey(rootPath, baseURL, baseURL + rest) == rootPath + rest
  {
    KeyOfBaseDotSlash(rootPath, baseURL, rest);
    KeyOfBaseSlash(rootPath, baseURL, rest);
    KeyOfBasePlus(rootPath, baseURL, rest);
    StripDotSlashSpec(rest);
  }

  lemma KeyOfBaseDotSlash(rootPath: string, baseURL: string, rest: string)
    ensures NormalizedKey(rootPath, baseURL, baseURL + "./" + rest) == rootPath + rest
  {
    var tail := "./" + rest;
    assert baseURL + "./" + rest == baseURL + tail;
    assert NormalizedKey(rootPath, baseURL, baseURL + tail) == rootPath + rest by {
      KeyOfBasePlus(rootPath, baseURL, tail);
      assert StripDotSlash(tail) == rest by { assert tail[2..] == rest; }
    }
  }

  lemma KeyOfBaseSlash(rootPath: string, baseURL: string, rest: string)
    ensures NormalizedKey(rootPath, baseURL, baseURL + "/" + rest) == rootPath + rest
  {
    var tail := "/" + rest;
    assert baseURL + "/" + rest == baseURL + tail;
    assert NormalizedKey(rootPath, baseURL, baseURL + tail) == rootPath + rest by {
      KeyOfBasePlus(rootPath, baseURL, tail);
      assert StripDotSlash(tail) == rest by { assert tail[1..] == rest; }
    }
  }

  lemma KeyOfBasePlus(rootPath: string, baseURL: string, tail: string)
    ensures NormalizedKey(rootPath, baseURL, baseURL + tail) == rootPath + StripDotSlash(tail)
  {
    RemoveFirstOfPrefix(baseURL, tail);
  }

  /** A reference that does not contain the base URL only loses one leading "./" or "/". */
  lemma KeyWithoutBase(rootPath: string, baseURL: string, decoded: string)
    requires Absent(decoded, baseURL)
    ensures NormalizedKey(rootPath, baseURL, decoded) == rootPath + StripDotSlash(decoded)
  {
    RemoveFirstSpec(decoded, baseURL);
  }

  /** `assetMap.has(key) ? assetMap.get(key) : undefined`, taking the first entry with that key. */
  function FindFile(fileMap: seq<Entry>, key: string): Option<File> {
    if fileMap == [] then None
    else if fileMap[0].path == key then Some(fileMap[0].file)
    else FindFile(fileMap[1..], key)
  }

  /**
   * The lookup misses exactly when no entry has the key; a hit is the file of an
   * entry with that key, and with unique keys (as in a `Map`) it is that entry's file.
   */
  lemma {:induction false} FindFileSpec(fileMap: seq<Entry>, key: string)
    ensures FindFile(fileMap, key).None? <==> forall i :: 0 <= i < |fileMap| ==> fileMap[i].path != key
    ensures FindFile(fileMap, key).Some? ==>
              exists i :: 0 <= i < |fileMap| && fileMap[i] == Entry(key, FindFile(fileMap, key).value)
    ensures UniqueKeys(fileMap) ==>
              forall i :: 0 <= i < |fileMap| && fileMap[i].path == key ==> FindFile(fileMap, key) == Some(fileMap[i].file)
    decreases |fileMap|
  {
    if fileMap != [] {
      var tail := fileMap[1..];
      FindFileSpec(tail, key);
      assert forall i :: 1 <= i < |fileMap| ==> fileMap[i] == tail[i - 1];
      if fileMap[0].path != key && FindFile(fileMap, key).Some? {
        var i :| 0 <= i < |tail| && tail[i] == Entry(key, FindFile(fileMap, key).value);
        assert fileMap[i + 1] == tail[i];
      }
    }
  }

  /** A reference the parser hands the modifier: `(url, path)`. */
  datatype Reference = Reference(url: string, path: Option<string>)

  /** What the modifier returns: a freshly minted object URL, or the reference left to the parser. */
  datatype Rewritten = ObjectUrl(handle: BlobUrl) | Passthrough(url: string)

  /** `path || ""`. */
  function PathPrefix(path: Option<string>): string {
    match path
    case None => ""
    case Some(p) => p
  }

  /** The dropped file a reference resolves to, if any; `decode` stands for `decodeURI`. */
  function Target(assetMap: seq<Entry>, rootPath: string, baseURL: string, decode: string -> string,
                  url: string): Option<File>
  {
    FindFile(assetMap, NormalizedKey(rootPath, baseURL, decode(url)))
  }

  /** The lookup the modifier performs, as a function of the URL alone. */
  function Lookup(assetMap: seq<Entry>, rootPath: string, baseURL: string, decode: string -> string):
    string -> Option<File>
  {
    u => Target(assetMap, rootPath, baseURL, decode, u)
  }

  /** The targets of a run of references under `lookup`, in order. */
  function Targets(lookup: string -> Option<File>, refs: seq<Reference>): (ts: seq<Option<File>>)
    ensures |ts| == |refs|
    decreases |refs|
  {
    if refs == [] then []
    else Targets(lookup, refs[..|refs| - 1]) + [lookup(refs[|refs| - 1].url)]
  }

  /** The `i`-th target is the target of the `i`-th reference. */
  lemma {:induction false} TargetsAt(lookup: string -> Option<File>, refs: seq<Reference>, i: nat)
    requires i < |refs|
    ensures Targets(lookup, refs)[i] == lookup(refs[i].url)
    decreases |refs|
  {
    if i < |refs| - 1 {
      var init := refs[..|refs| - 1];
      TargetsAt(lookup, init, i);
      assert init[i] == refs[i];
    }
  }

  /** A rewrite is right for its reference: an object URL on a hit, `(path || "") + url` on a miss. */
  predicate Fits(target: Option<File>, ref: Reference, rw: Rewritten) {
    match target
    case None => rw == Passthrough(PathPrefix(ref.path) + ref.url)
    case Some(_) => rw.ObjectUrl?
  }

  /** Each object URL among the rewrites exposes its reference's target file. */
  predicate Exposes(live: map<BlobUrl, File>, targets: seq<Option<File>>, rws: seq<Rewritten>)
    requires |targets| == |rws|
  {
    forall i :: 0 <= i < |rws| && rws[i].ObjectUrl? ==>
      rws[i].handle in live && targets[i] == Some(live[rws[i].handle])
  }

  /** The handles among a run of rewrites, in order: what ends up in `blobURLs`. */
  function Minted(rws: seq<Rewritten>): seq<BlobUrl>
    decreases |rws|
  {
    if rws == [] then []
    else
      var last := rws[|rws| - 1];
      Minted(rws[..|rws| - 1]) + (if last.ObjectUrl? then [last.handle] else [])
  }

  function HandleSet(hs: seq<BlobUrl>): set<BlobUrl> {
    set h | h in hs
  }

  /** The modifier's answer for one reference with target `t`, when the store would mint `next`. */
  function Rewrite(t: Option<File>, ref: Reference, next: nat): Rewritten {
    match t
    case Some(_) => ObjectUrl(BlobUrl(next))
    case None => Passthrough(PathPrefix(ref.path) + ref.url)
  }

  /** The answers for a run of references with targets `ts`, minting from `start` on. */
  function Rewrites(ts: seq<Option<File>>, refs: seq<Reference>, start: nat): (rws: seq<Rewritten>)
    requires |ts| == |refs|
    ensures |rws| == |refs|
    decreases |refs|
  {
    if refs == [] then []
    else
      var n := |refs| - 1;
      var init := Rewrites(ts[..n], refs[..n], start);
      init + [Rewrite(ts[n], refs[n], start + |Minted(init)|)]
  }

  /** The store's live handles after the rewrites: each minted handle added with its target. */
  function LiveAfter(live0: map<BlobUrl, File>, ts: seq<Option<File>>, rws: seq<Rewritten>): map<BlobUrl, File>
    requires |ts| == |rws|
    decreases |rws|
  {
    if rws == [] then live0
    else
      var n := |rws| - 1;
      var init := LiveAfter(live0, ts[..n], rws[..n]);
      if rws[n].ObjectUrl? && ts[n].Some? then init[rws[n].handle := ts[n].value] else init
  }

  /** No object URL among the rewrites has an id of `bound` or more. */
  predicate HandlesBelow(rws: seq<Rewritten>, bound: nat) {
    forall i :: 0 <= i < |rws| && rws[i].ObjectUrl? ==> rws[i].handle.id < bound
  }

  /** The `j`-th minted handle is the `j`-th one after `start`. */
  predicate Consecutive(hs: seq<BlobUrl>, start: nat) {
    forall j :: 0 <= j < |hs| ==> hs[j] == BlobUrl(start + j)
  }

  lemma ConsecutiveDistinct(hs: seq<BlobUrl>, start: nat)
    requires Consecutive(hs, start)
    ensures Distinct(hs) && MintedSince(hs, start)
  {
  }

  /** Every answer fits its reference. */
  lemma {:induction false} RewritesFit(ts: seq<Option<File>>, refs: seq<Reference>, start: nat)
    requires |ts| == |refs|
    ensures var rws := Rewrites(ts, refs, start);
            forall i :: 0 <= i < |refs| ==> Fits(ts[i], refs[i], rws[i])
    decreases |refs|
  {
    if refs != [] {
      var n := |refs| - 1;
      var ts0, refs0 := ts[..n], refs[..n];
      RewritesFit(ts0, refs0, start);
      var init := Rewrites(ts0, refs0, start);
      var rws := Rewrites(ts, refs, start);
      assert rws == init + [Rewrite(ts[n], refs[n], start + |Minted(init)|)];
      forall i | 0 <= i < |refs|
        ensures Fits(ts[i], refs[i], rws[i])
      {
        if i < n {
          assert rws[i] == init[i] && ts[i] == ts0[i] && refs[i] == refs0[i];
        }
      }
    }
  }

  /** The minted handles are the next ones after `start`, in order, and no answer names a later one. */
  lemma {:induction false} RewritesMinted(ts: seq<Option<File>>, refs: seq<Reference>, start: nat)
    requires |ts| == |refs|
    ensures Consecutive(Minted(Rewrites(ts, refs, start)), start)
    ensures HandlesBelow(Rewrites(ts, refs, start), start + |Minted(Rewrites(ts, refs, start))|)
    decreases |refs|
  {
    if refs != [] {
      var n := |refs| - 1;
      RewritesMinted(ts[..n], refs[..n], start);
      var init := Rewrites(ts[..n], refs[..n], start);
      var m0 := Minted(init);
      var rws := Rewrites(ts, refs, start);
      assert rws == init + [Rewrite(ts[n], refs[n], start + |m0|)];
      assert rws[..n] == init;
      assert Minted(rws) == m0 + (if rws[n].ObjectUrl? then [rws[n].handle] else []);
      forall i | 0 <= i < |rws| && rws[i].ObjectUrl?
        ensures rws[i].handle.id < start + |Minted(rws)|
      {
        if i < n {
          assert rws[i] == init[i];
        } else {
          assert rws[n] == Rewrite(ts[n], refs[n], start + |m0|);
          assert rws[n].handle.id == start + |m0|;
        }
      }
    }
  }

  /** After the rewrites, exactly the minted handles were added, and the handles live before keep their files. */
  lemma {:induction false} RewritesKeys(live0: map<BlobUrl, File>, ts: seq<Option<File>>, refs: seq<Reference>,
                                        start: nat)
    requires |ts| == |refs|
    requires forall h :: h in live0 ==> h.id < start
    ensures var rws := Rewrites(ts, refs, start);
            LiveAfter(live0, ts, rws).Keys == live0.Keys + HandleSet(Minted(rws))
    ensures var rws := Rewrites(ts, refs, start);
            forall h :: h in live0 ==> LiveAfter(live0, ts, rws)[h] == live0[h]
    decreases |refs|
  {
    if refs != [] {
      var n := |refs| - 1;
      var ts0 := ts[..n];
      RewritesKeys(live0, ts0, refs[..n], start);
      var init := Rewrites(ts0, refs[..n], start);
      var m0 := Minted(init);
      var rws := Rewrites(ts, refs, start);
      var r := Rewrite(ts[n], refs[n], start + |m0|);
      assert rws == init + [r];
      assert rws[..n] == init;
      var live1 := LiveAfter(live0, ts0, init);
      assert Minted(rws) == m0 + (if r.ObjectUrl? then [r.handle] else []);
      if r.ObjectUrl? {
        assert LiveAfter(live0, ts, rws) == live1[r.handle := ts[n].value];
        assert HandleSet(Minted(rws)) == HandleSet(m0) + {r.handle};
      } else {
        assert LiveAfter(live0, ts, rws) == live1;
        assert HandleSet(Minted(rws)) == HandleSet(m0);
      }
    }
  }

  /** After the rewrites, each object URL exposes its reference's file. */
  lemma {:induction false} RewritesExpose(live0: map<BlobUrl, File>, ts: seq<Option<File>>, refs: seq<Reference>,
                                          start: nat)
    requires |ts| == |refs|
    ensures var rws := Rewrites(ts, refs, start);
            Exposes(LiveAfter(live0, ts, rws), ts, rws)
    decreases |refs|
  {
    if refs != [] {
      var n := |refs| - 1;
      var ts0 := ts[..n];
      RewritesExpose(live0, ts0, refs[..n], start);
      RewritesMinted(ts0, refs[..n], start);
      var init := Rewrites(ts0, refs[..n], start);
      var r := Rewrite(ts[n], refs[n], start + |Minted(init)|);
      var rws := Rewrites(ts, refs, start);
      assert rws == init + [r];
      assert ts == ts0 + [ts[n]];
      LiveAfterSnoc(live0, ts0, init, ts[n], r);
      ExposesSnoc(LiveAfter(live0, ts0, init), ts0, init, ts[n], r, start + |Minted(init)|);
    }
  }

  /** A fresh handle bound to its own target keeps every earlier object URL exposing its file. */
  lemma ExposesSnoc(live: map<BlobUrl, File>, ts: seq<Option<File>>, rws: seq<Rewritten>, t: Option<File>,
                    r: Rewritten, bound: nat)
    requires |ts| == |rws|
    requires Exposes(live, ts, rws) && HandlesBelow(rws, bound)
    requires r.ObjectUrl? <==> t.Some?
    requires r.ObjectUrl? ==> r.handle.id == bound
    ensures Exposes(if r.ObjectUrl? && t.Some? then live[r.handle := t.value] else live, ts + [t], rws + [r])
  {
    var live' := if r.ObjectUrl? && t.Some? then live[r.handle := t.value] else live;
    forall i | 0 <= i < |rws + [r]| && (rws + [r])[i].ObjectUrl?
      ensures (rws + [r])[i].handle in live' && (ts + [t])[i] == Some(live'[(rws + [r])[i].handle])
    {
      if i < |rws| {
        assert (rws + [r])[i] == rws[i] && (ts + [t])[i] == ts[i];
      }
    }
  }

  /** The closure installed with `MANAGER.setURLModifier`, with the `blobURLs` array it pushes onto. */
  class UrlModifier {
    const rootPath: string
    const baseURL: string
    const assetMap: seq<Entry>
    const decode: string -> string
    const store: ObjectUrlStore
    var blobURLs: seq<BlobUrl>
    /** What the modifier answers for each URL; `Resolves` ties it to the key normalisation. */
    ghost const lookup: string -> Option<File>

    ghost predicate Resolves() {
      forall u {:trigger Target(assetMap, rootPath, baseURL, decode, u)} ::
        lookup(u) == Target(assetMap, rootPath, baseURL, decode, u)
    }

    ghost predicate Valid()
      reads this, store
    {
      && Resolves()
      && store.Valid()
      && forall i :: 0 <= i < |blobURLs| ==> blobURLs[i].id < store.next
    }

    constructor (rootPath: string, baseURL: string, assetMap: seq<Entry>, decode: string -> string,
                 store: ObjectUrlStore)
      requires store.Valid()
      ensures Valid()
      ensures this.rootPath == rootPath && this.baseURL == baseURL && this.assetMap == assetMap
      ensures this.decode == decode && this.store == store
      ensures lookup == Lookup(assetMap, rootPath, baseURL, decode)
      ensures blobURLs == []
    {
      this.rootPath := rootPath;
      this.baseURL := baseURL;
      this.assetMap := assetMap;
      this.decode := decode;
      this.store := store;
      lookup := Lookup(assetMap, rootPath, baseURL, decode);
      blobURLs := [];
    }

    /** `(url, path) => ...`: a hit mints one object URL and records it; a miss changes nothing. */
    method Modify(url: string, path: Option<string>) returns (r: Rewritten)
      requires Valid()
      modifies this, store
      ensures Valid()
      ensures r == Rewrite(lookup(url), Reference(url, path), old(store.next))
      ensures r.ObjectUrl? ==> r.handle !in old(store.live) && r.handle !in old(blobURLs)
      ensures store.revoked == old(store.revoked)
      ensures r.ObjectUrl? <==> lookup(url).Some?
      ensures blobURLs == old(blobURLs) + (if r.ObjectUrl? then [r.handle] else [])
      ensures store.next == old(store.next) + (if r.ObjectUrl? then 1 else 0)
      ensures store.live == if r.ObjectUrl? && lookup(url).Some? then old(store.live)[r.handle := lookup(url).value]
                            else old(store.live)
    {
      var normalizedURL := NormalizedKey(rootPath, baseURL, decode(url));
      var blob := FindFile(assetMap, normalizedURL);
      assert blob == Target(assetMap, rootPath, baseURL, decode, url);
      if blob.Some? {
        var blobURL := store.Create(blob.value);
        blobURLs := blobURLs + [blobURL];
        return ObjectUrl(blobURL);
      }
      return Passthrough(PathPrefix(path) + url);
    }
  }

  /**
   * The parser asks the modifier about each reference in turn: the answers, the
   * handles recorded in `blobURLs` and the store's live handles are those of
   * `Rewrites` and `LiveAfter` on the references' targets.
   */
  method ResolveAll(modifier: UrlModifier, references: seq<Reference>) returns (rewritten: seq<Rewritten>)
    requires modifier.Valid() && modifier.blobURLs == []
    modifies modifier, modifier.store
    ensures modifier.Valid()
    ensures var ts := Targets(modifier.lookup, references);
            && rewritten == Rewrites(ts, references, old(modifier.store.next))
            && modifier.store.live == LiveAfter(old(modifier.store.live), ts, rewritten)
    ensures modifier.blobURLs == Minted(rewritten)
    ensures modifier.store.next == old(modifier.store.next) + |modifier.blobURLs|
    ensures modifier.store.revoked == old(modifier.store.revoked)
  {
    ghost var start := modifier.store.next;
    ghost var live0 := modifier.store.live;
    ghost var revoked0 := modifier.store.revoked;
    rewritten := [];
    for k := 0 to |references|
      invariant modifier.Valid()
      invariant ResolvedUpTo(modifier, references, k, rewritten, start, live0, revoked0)
    {
      rewritten := ResolveNext(modifier, references, k, rewritten, start, live0, revoked0);
    }
    assert references[..|references|] == references;
  }

  /** The modifier's state after answering the first `k` references, starting from `start`, `live0` and `revoked0`. */
  ghost predicate ResolvedUpTo(modifier: UrlModifier, references: seq<Reference>, k: nat, rewritten: seq<Rewritten>,
                               start: nat, live0: map<BlobUrl, File>, revoked0: seq<BlobUrl>)
    reads modifier, modifier.store
    requires k <= |references|
  {
    var ts := Targets(modifier.lookup, references[..k]);
    && rewritten == Rewrites(ts, references[..k], start)
    && modifier.blobURLs == Minted(rewritten)
    && modifier.store.next == start + |modifier.blobURLs|
    && modifier.store.live == LiveAfter(live0, ts, rewritten)
    && modifier.store.revoked == revoked0
  }

  /** One step of `ResolveAll`: the `k`-th reference is answered and the tracked state extended by it. */
  method ResolveNext(modifier: UrlModifier, references: seq<Reference>, k: nat, rewritten: seq<Rewritten>,
                     ghost start: nat, ghost live0: map<BlobUrl, File>, ghost revoked0: seq<BlobUrl>)
    returns (rewritten': seq<Rewritten>)
    requires k < |references|
    requires modifier.Valid() && ResolvedUpTo(modifier, references, k, rewritten, start, live0, revoked0)
    modifies modifier, modifier.store
    ensures modifier.Valid() && ResolvedUpTo(modifier, references, k + 1, rewritten', start, live0, revoked0)
  {
    var url, path := references[k].url, references[k].path;
    var r := modifier.Modify(url, path);
    StepRewrites(modifier.lookup, references, k, rewritten, start, r);
    MintedSnoc(rewritten, r);
    StepLive(modifier.lookup, references, k, rewritten, live0, r);
    rewritten' := rewritten + [r];
  }

  /** Answering reference `k` extends the answers to the first `k` references by its own answer. */
  lemma StepRewrites(lookup: string -> Option<File>, refs: seq<Reference>, k: nat, rws: seq<Rewritten>, start: nat,
                     r: Rewritten)
    requires k < |refs|
    requires rws == Rewrites(Targets(lookup, refs[..k]), refs[..k], start)
    requires r == Rewrite(lookup(refs[k].url), Reference(refs[k].url, refs[k].path), start + |Minted(rws)|)
    ensures rws + [r] == Rewrites(Targets(lookup, refs[..k + 1]), refs[..k + 1], start)
  {
    var ts, t := Targets(lookup, refs[..k]), lookup(refs[k].url);
    TargetsSnoc(lookup, refs, k);
    RewritesSnoc(ts, refs, k, t, start);
    calc {
      Rewrites(Targets(lookup, refs[..k + 1]), refs[..k + 1], start);
      { assert Targets(lookup, refs[..k + 1]) == ts + [t]; }
      Rewrites(ts + [t], refs[..k + 1], start);
      rws + [r];
    }
  }

  /** Answering reference `k` binds its handle, if any, to its target. */
  lemma StepLive(lookup: string -> Option<File>, refs: seq<Reference>, k: nat, rws: seq<Rewritten>,
                 live0: map<BlobUrl, File>, r: Rewritten)
    requires k < |refs| && |rws| == k
    ensures LiveAfter(live0, Targets(lookup, refs[..k + 1]), rws + [r]) ==
              if r.ObjectUrl? && lookup(refs[k].url).Some?
              then LiveAfter(live0, Targets(lookup, refs[..k]), rws)[r.handle := lookup(refs[k].url).value]
              else LiveAfter(live0, Targets(lookup, refs[..k]), rws)
  {
    TargetsSnoc(lookup, refs, k);
    LiveAfterSnoc(live0, Targets(lookup, refs[..k]), rws, lookup(refs[k].url), r);
  }

  /** One more reference adds its target at the end. */
  lemma TargetsSnoc(lookup: string -> Option<File>, refs: seq<Reference>, k: nat)
    requires k < |refs|
    ensures Targets(lookup, refs[..k + 1]) == Targets(lookup, refs[..k]) + [lookup(refs[k].url)]
  {
    assert refs[..k + 1][..k] == refs[..k];
  }

  /** One more reference adds its own answer, minted after the earlier ones. */
  lemma RewritesSnoc(ts: seq<Option<File>>, refs: seq<Reference>, k: nat, t: Option<File>, start: nat)
    requires |ts| == k < |refs|
    ensures Rewrites(ts + [t], refs[..k + 1], start) ==
              Rewrites(ts, refs[..k], start)
                + [Rewrite(t, Reference(refs[k].url, refs[k].path), start + |Minted(Rewrites(ts, refs[..k], start))|)]
  {
    assert (ts + [t])[..k] == ts;
    assert refs[..k + 1][..k] == refs[..k];
    assert refs[..k + 1][k] == refs[k] == Reference(refs[k].url, refs[k].path);
  }

  lemma MintedSnoc(rws: seq<Rewritten>, r: Rewritten)
    ensures Minted(rws + [r]) == Minted(rws) + (if r.ObjectUrl? then [r.handle] else [])
  {
    assert (rws + [r])[..|rws|] == rws;
  }

  lemma LiveAfterSnoc(live0: map<BlobUrl, File>, ts: seq<Option<File>>, rws: seq<Rewritten>,
                      t: Option<File>, r: Rewritten)
    requires |ts| == |rws|
    ensures LiveAfter(live0, ts + [t], rws + [r]) ==
              if r.ObjectUrl? && t.Some? then LiveAfter(live0, ts, rws)[r.handle := t.value]
              else LiveAfter(live0, ts, rws)
  {
    assert (ts + [t])[..|ts|] == ts;
    assert (rws + [r])[..|rws|] == rws;
  }

  /** `blobURLs.forEach(URL.revokeObjectURL)`: each handle is revoked once, in order. */
  method RevokeEach(store: ObjectUrlStore, handles: seq<BlobUrl>)
    requires store.Valid()
    modifies store
    ensures store.Valid()
    ensures store.next == old(store.next)
    ensures store.live == old(store.live) - HandleSet(handles)
    ensures store.revoked == old(store.revoked) + handles
  {
    for i := 0 to |handles|
      invariant store.Valid()
      invariant store.next == old(store.next)
      invariant store.live == old(store.live) - HandleSet(handles[..i])
      invariant store.revoked == old(store.revoked) + handles[..i]
    {
      store.Revoke(handles[i]);
      assert HandleSet(handles[..i + 1]) == HandleSet(handles[..i]) + {handles[i]};
      assert handles[..i + 1] == handles[..i] + [handles[i]];
    }
    assert handles[..|handles|] == handles;
  }

  /** What a format parser does in the end: call the success callback with its result, or `reject`. */
  datatype ParseOutcome<T> = Parsed(value: T) | ParseFailed

  // ---------------------------------------------------------------------------
  // The glTF/GLB success callback.

  /** What `GLTFLoader` hands the success callback. */
  datatype Gltf = Gltf(scene: Option<Object3D>, scenes: seq<Object3D>, animations: Option<seq<AnimationClip>>)

  /** `gltf.scene || gltf.scenes[0]`: the default scene, else the first scene, else nothing. */
  function SceneOf(gltf: Gltf): Option<Object3D>
  {
    if gltf.scene.Some? then gltf.scene
    else if gltf.scenes != [] then Some(gltf.scenes[0])
    else None
  }

  /** `gltf.animations || []`: the asset's clips, or none. */
  function ClipsOf(gltf: Gltf): seq<AnimationClip>
  {
    match gltf.animations
    case Some(clips) => clips
    case None => []
  }

  /** What the callback has picked when it reaches `resolve(gltf)`. */
  datatype GlbResult = GlbResult(objects: Object3D, clips: seq<AnimationClip>)

  /**
   * The GLB callback gets as far as the revocation when there is a scene (else
   * `objects.children` throws, before the `!objects` test), the scene has a first
   * child (else `createScene` hands `resetPosition` an `undefined` and it throws),
   * and that child's `yDiff` can be read.
   */
  predicate GlbDisplays(gltf: Gltf) {
    && SceneOf(gltf).Some?
    && SceneOf(gltf).value.children != []
    && !SceneManager.YDiff(SceneOf(gltf).value.children[0]).Throws?
  }

  /** The object the GLB callback writes to: the scene's first child, which `resetPosition` moves. */
  function GlbFootprint(outcome: ParseOutcome<Gltf>): set<object> {
    match outcome
    case Parsed(gltf) =>
      if SceneOf(gltf).Some? && SceneOf(gltf).value.children != [] then {SceneOf(gltf).value.children[0]} else {}
    case ParseFailed => {}
  }

  // ---------------------------------------------------------------------------
  // The FBX success callback: the material traversal and the scale.

  const FBX_SCALE: Vector3 := Vector3(Num(0.01), Num(0.01), Num(0.01))

  /**
   * `child.isMesh && child.material`, where the assignment reaches a material:
   * an array of materials is truthy as well, but `transparent = false` then lands
   * on the array object and none of its materials.
   */
  predicate HasSingleMaterial(n: Object3D) {
    n.isMesh && n.material.Single?
  }

  /** The materials the traversal writes: the single materials of the visited meshes. */
  function MeshMaterials(nodes: seq<Object3D>): set<Material> {
    set i | 0 <= i < |nodes| && HasSingleMaterial(nodes[i]) :: nodes[i].material.material
  }

  /** The materials held in material arrays of the visited nodes. */
  function ArrayMaterials(nodes: seq<Object3D>): set<Material> {
    set i, j | 0 <= i < |nodes| && nodes[i].material.Multi? && 0 <= j < |nodes[i].material.materials| ::
      nodes[i].material.materials[j]
  }

  /**
   * `object.traverse(...)` over the nodes it visits: every mesh's single material
   * is made opaque, and no other object is written to; in particular a material
   * reached only through an array keeps its `transparent` flag.
   */
  method ForceOpaque(nodes: seq<Object3D>)
    modifies MeshMaterials(nodes)
    ensures forall i :: 0 <= i < |nodes| && HasSingleMaterial(nodes[i]) ==> !nodes[i].material.material.transparent
    ensures forall m :: m in ArrayMaterials(nodes) && m !in MeshMaterials(nodes) ==> m.transparent == old(m.transparent)
  {
    for i := 0 to |nodes|
      invariant forall j :: 0 <= j < i && HasSingleMaterial(nodes[j]) ==> !nodes[j].material.material.transparent
    {
      var child := nodes[i];
      if child.isMesh {
        match child.material {
          case NoMaterial =>
          case Single(m) => m.transparent := false;
          case Multi(_) =>
        }
      }
    }
  }

  /** An `FBXLoader` result: the object and, in traversal order, the nodes `traverse` visits. */
  datatype FbxObject = FbxObject(root: Object3D, traversal: seq<Object3D>)

  function FbxFootprint(outcome: ParseOutcome<FbxObject>): set<object> {
    match outcome
    case Parsed(o) => {o.root} + MeshMaterials(o.traversal)
    case ParseFailed => {}
  }

  // ---------------------------------------------------------------------------
  // The loader object: classification, dispatch, and the two pipelines.

  /** What `view` is called with as `rootFile`. */
  datatype RootRef = Undefined | FileRef(file: File) | UrlString(url: string)

  datatype FileUrl = BlobFileUrl(handle: BlobUrl) | TextFileUrl(url: string)

  datatype Pipeline = GlbPipeline | FbxPipeline | ObjPipeline

  /**
   * What `view` ends in: `URL.createObjectURL(undefined)` raises a TypeError
   * before the switch, otherwise one pipeline is started.
   */
  datatype Dispatch =
    | CreateUrlFailed
    | Dispatched(pipeline: Pipeline, fileURL: FileUrl, rootPath: Option<string>, fileMap: seq<Entry>)

  /** The `switch (this.filetype)` of `view`. */
  function PipelineFor(t: FileType): Pipeline
  {
    match t
    case GLB => GlbPipeline
    case FBX => FbxPipeline
    case OBJ => ObjPipeline
  }

  class Loader {
    var filetype: FileType

    constructor ()
      ensures filetype == GLB
    {
      filetype := GLB;
    }

    /**
     * `load(fileMap)`: the scan leaves the last matching entry's file, root path and
     * type; with no match the type stays what it was, and `view` fails on the
     * undefined root file.
     */
    method Load(fileMap: seq<Entry>, store: ObjectUrlStore) returns (d: Dispatch)
      requires store.Valid()
      modifies this, store
      ensures store.Valid()
      ensures match LastRoot(fileMap)
        case None =>
          && filetype == old(filetype)
          && d == CreateUrlFailed
          && unchanged(store)
        case Some(r) =>
          && filetype == r.kind
          && d == Dispatched(PipelineFor(r.kind), BlobFileUrl(BlobUrl(old(store.next))), Some(r.path), fileMap)
          && store.next == old(store.next) + 1
          && store.live == old(store.live)[BlobUrl(old(store.next)) := r.file]
          && store.revoked == old(store.revoked)
    {
      var rootFile, rootPath := Scan(fileMap);
      var root := if rootFile.Some? then FileRef(rootFile.value) else Undefined;
      d := View(root, rootPath, fileMap, store);
    }

    /** The `forEach` of `load`: the last matching entry's file, root path and type are left behind. */
    method Scan(fileMap: seq<Entry>) returns (rootFile: Option<File>, rootPath: Option<string>)
      modifies this
      ensures match LastRoot(fileMap)
        case None => rootFile == None && rootPath == None && filetype == old(filetype)
        case Some(r) => rootFile == Some(r.file) && rootPath == Some(r.path) && filetype == r.kind
    {
      rootFile, rootPath := None, None;
      for i := 0 to |fileMap|
        invariant match LastRoot(fileMap[..i])
          case None => rootFile == None && rootPath == None && filetype == old(filetype)
          case Some(r) => rootFile == Some(r.file) && rootPath == Some(r.path) && filetype == r.kind
      {
        var path, file := fileMap[i].path, fileMap[i].file;
        LastRootSnoc(fileMap, i);
        if MatchesGltf(file.name) {
          rootFile := Some(file);
          rootPath := Some(RemoveFirst(path, file.name));
          filetype := GLB;
        }
        if MatchesObj(file.name) {
          rootFile := Some(file);
          rootPath := Some(RemoveFirst(path, file.name));
          filetype := OBJ;
        }
        if MatchesFbx(file.name) {
          rootFile := Some(file);
          rootPath := Some(RemoveFirst(path, file.name));
          filetype := FBX;
        }
      }
      assert fileMap[..|fileMap|] == fileMap;
    }

    /** `view(rootFile, rootPath, fileMap)`. */
    method View(rootFile: RootRef, rootPath: Option<string>, fileMap: seq<Entry>, store: ObjectUrlStore)
      returns (d: Dispatch)
      requires store.Valid()
      modifies store
      ensures store.Valid()
      ensures match rootFile
        case Undefined => d == CreateUrlFailed && unchanged(store)
        case UrlString(u) =>
          d == Dispatched(PipelineFor(filetype), TextFileUrl(u), rootPath, fileMap) && unchanged(store)
        case FileRef(f) =>
          && d == Dispatched(PipelineFor(filetype), BlobFileUrl(BlobUrl(old(store.next))), rootPath, fileMap)
          && store.next == old(store.next) + 1
          && store.live == old(store.live)[BlobUrl(old(store.next)) := f]
          && store.revoked == old(store.revoked)
    {
      var fileURL: FileUrl;
      match rootFile {
        case Undefined =>
          return CreateUrlFailed;
        case UrlString(u) =>
          fileURL := TextFileUrl(u);
        case FileRef(f) =>
          var h := store.Create(f);
          fileURL := BlobFileUrl(h);
      }
      d := Dispatched(PipelineFor(filetype), fileURL, rootPath, fileMap);
    }

    /**
     * The part `loadGLB` and `loadFBX` share: a fresh modifier with an empty
     * `blobURLs` is installed and the parser resolves every reference through it.
     * Each answer fits its reference, the recorded handles are the next ones the
     * store mints, and each exposes its reference's file.
     */
    method ResolveReferences(rootPath: string, baseURL: string, assetMap: seq<Entry>, decode: string -> string,
                             store: ObjectUrlStore, references: seq<Reference>)
      returns (rewritten: seq<Rewritten>, blobURLs: seq<BlobUrl>)
      requires store.Valid()
      modifies store
      ensures store.Valid()
      ensures var ts := Targets(Lookup(assetMap, rootPath, baseURL, decode), references);
              && rewritten == Rewrites(ts, references, old(store.next))
              && (forall i :: 0 <= i < |references| ==> Fits(ts[i], references[i], rewritten[i]))
              && store.live == LiveAfter(old(store.live), ts, rewritten)
              && Exposes(store.live, ts, rewritten)
      ensures blobURLs == Minted(rewritten) && Consecutive(blobURLs, old(store.next))
      ensures Distinct(blobURLs) && MintedSince(blobURLs, old(store.next))
      ensures store.next == old(store.next) + |blobURLs|
      ensures store.live.Keys == old(store.live).Keys + HandleSet(blobURLs)
      ensures forall h :: h in old(store.live) ==> store.live[h] == old(store.live)[h]
      ensures store.revoked == old(store.revoked)
    {
      var modifier := new UrlModifier(rootPath, baseURL, assetMap, decode, store);
      rewritten := ResolveAll(modifier, references);
      blobURLs := modifier.blobURLs;
      ghost var ts := Targets(Lookup(assetMap, rootPath, baseURL, decode), references);
      RewritesFit(ts, references, old(store.next));
      RewritesMinted(ts, references, old(store.next));
      RewritesExpose(old(store.live), ts, references, old(store.next));
      RewritesKeys(old(store.live), ts, references, old(store.next));
      ConsecutiveDistinct(blobURLs, old(store.next));
    }

    /**
     * `loadGLB`: every reference the parser asks about is rewritten. On success the
     * scene and clips are picked, the scene's first child is repositioned, and,
     * if the callback gets that far, every object URL minted for this load is
     * revoked, leaving the store's live handles as they were. When the callback
     * throws first, or the parser calls `reject`, nothing is revoked.
     * `baseURL` is `LoaderUtils.extractUrlBase(url)`.
     */
    method LoadGlb(rootPath: string, baseURL: string, assetMap: seq<Entry>, decode: string -> string,
                   store: ObjectUrlStore, references: seq<Reference>, outcome: ParseOutcome<Gltf>)
      returns (rewritten: seq<Rewritten>, blobURLs: seq<BlobUrl>, loaded: Option<GlbResult>)
      requires store.Valid()
      modifies store, GlbFootprint(outcome)
      ensures store.Valid()
      ensures var ts := Targets(Lookup(assetMap, rootPath, baseURL, decode), references);
              && rewritten == Rewrites(ts, references, old(store.next))
              && forall i :: 0 <= i < |references| ==> Fits(ts[i], references[i], rewritten[i])
      ensures blobURLs == Minted(rewritten) && Consecutive(blobURLs, old(store.next))
      ensures store.next == old(store.next) + |blobURLs|
      ensures outcome.Parsed? && GlbDisplays(outcome.value) ==>
                var node := SceneOf(outcome.value).value.children[0];
                && loaded == Some(GlbResult(SceneOf(outcome.value).value, ClipsOf(outcome.value)))
                && node.position == Vector3(Num(0.0), SceneManager.Negated(SceneManager.YDiff(node)), Num(0.0))
                && store.live == old(store.live)
                && store.revoked == old(store.revoked) + blobURLs
      ensures !(outcome.Parsed? && GlbDisplays(outcome.value)) ==>
                && loaded == None
                && store.live == LiveAfter(old(store.live), Targets(Lookup(assetMap, rootPath, baseURL, decode), references), rewritten)
                && store.revoked == old(store.revoked)
      ensures outcome.Parsed? && SceneOf(outcome.value).Some? && SceneOf(outcome.value).value.children != [] &&
              SceneManager.YDiff(SceneOf(outcome.value).value.children[0]).Throws? ==>
                SceneOf(outcome.value).value.children[0].position == ORIGIN
    {
      rewritten, blobURLs := ResolveReferences(rootPath, baseURL, assetMap, decode, store, references);
      loaded := None;
      match outcome {
        case Parsed(gltf) =>
          loaded := GlbLoaded(gltf, store, blobURLs, old(store.live), old(store.next));
        case ParseFailed =>
      }
    }

    /**
     * `loadFBX`: the same rewriting. On success every visited mesh's single material is made
     * opaque, the object is scaled by 0.01 on each axis and repositioned, and, if
     * its `yDiff` can be read, this load's object URLs are revoked. When
     * `resetPosition` throws, or the parser calls `reject`, nothing is revoked.
     */
    method LoadFbx(rootPath: string, baseURL: string, assetMap: seq<Entry>, decode: string -> string,
                   store: ObjectUrlStore, references: seq<Reference>, outcome: ParseOutcome<FbxObject>)
      returns (rewritten: seq<Rewritten>, blobURLs: seq<BlobUrl>)
      requires store.Valid()
      modifies store, FbxFootprint(outcome)
      ensures store.Valid()
      ensures var ts := Targets(Lookup(assetMap, rootPath, baseURL, decode), references);
              && rewritten == Rewrites(ts, references, old(store.next))
              && forall i :: 0 <= i < |references| ==> Fits(ts[i], references[i], rewritten[i])
      ensures blobURLs == Minted(rewritten) && Consecutive(blobURLs, old(store.next))
      ensures store.next == old(store.next) + |blobURLs|
      ensures outcome.Parsed? ==>
                var o := outcome.value;
                && o.root.scale == FBX_SCALE
                && (forall i :: 0 <= i < |o.traversal| && HasSingleMaterial(o.traversal[i]) ==>
                      !o.traversal[i].material.material.transparent)
                && (forall m :: m in ArrayMaterials(o.traversal) && m !in MeshMaterials(o.traversal) ==>
                      m.transparent == old(m.transparent))
      ensures outcome.Parsed? && !SceneManager.YDiff(outcome.value.root).Throws? ==>
                && outcome.value.root.position ==
                     Vector3(Num(0.0), SceneManager.Negated(SceneManager.YDiff(outcome.value.root)), Num(0.0))
                && store.live == old(store.live)
                && store.revoked == old(store.revoked) + blobURLs
      ensures !(outcome.Parsed? && !SceneManager.YDiff(outcome.value.root).Throws?) ==>
                && store.live == LiveAfter(old(store.live), Targets(Lookup(assetMap, rootPath, baseURL, decode), references), rewritten)
                && store.revoked == old(store.revoked)
      ensures outcome.Parsed? && SceneManager.YDiff(outcome.value.root).Throws? ==> outcome.value.root.position == ORIGIN
    {
      rewritten, blobURLs := ResolveReferences(rootPath, baseURL, assetMap, decode, store, references);
      match outcome {
        case Parsed(o) =>
          FbxLoaded(o, store, blobURLs, old(store.live), old(store.next));
        case ParseFailed =>
      }
    }
  }

  /**
   * The success callback `loadGLB` hands to `loader.load`, after the parser resolved the
   * references: it stops before the revocation unless there is a scene with a
   * first child whose `yDiff` can be read.
   */
  method GlbLoaded(gltf: Gltf, store: ObjectUrlStore, blobURLs: seq<BlobUrl>, ghost live0: map<BlobUrl, File>,
                   ghost start: nat)
    returns (loaded: Option<GlbResult>)
    requires store.Valid()
    requires forall h :: h in live0 ==> h.id < start
    requires MintedSince(blobURLs, start)
    requires store.live.Keys == live0.Keys + HandleSet(blobURLs)
    requires forall h :: h in live0 ==> store.live[h] == live0[h]
    modifies store, GlbFootprint(Parsed(gltf))
    ensures store.Valid()
    ensures store.next == old(store.next)
    ensures GlbDisplays(gltf) ==>
              var node := SceneOf(gltf).value.children[0];
              && loaded == Some(GlbResult(SceneOf(gltf).value, ClipsOf(gltf)))
              && node.position == Vector3(Num(0.0), SceneManager.Negated(SceneManager.YDiff(node)), Num(0.0))
              && store.live == live0
              && store.revoked == old(store.revoked) + blobURLs
    ensures !GlbDisplays(gltf) ==> loaded == None && store.live == old(store.live) && store.revoked == old(store.revoked)
    ensures SceneOf(gltf).Some? && SceneOf(gltf).value.children != [] &&
            SceneManager.YDiff(SceneOf(gltf).value.children[0]).Throws? ==>
              SceneOf(gltf).value.children[0].position == ORIGIN
  {
    loaded := None;
    var objects := SceneOf(gltf);
    var clips := ClipsOf(gltf);
    if objects.Some? && objects.value.children != [] {
      var threw := SceneManager.ResetPosition(objects.value.children[0]);
      if !threw {
        ReleaseAll(store, blobURLs, live0, start);
        loaded := Some(GlbResult(objects.value, clips));
      }
    }
  }

  /**
   * The success callback `loadFBX` hands to `loader.load`, after the parser resolved the
   * references: the object is prepared and repositioned, and the revocation is
   * reached unless reading `yDiff` throws.
   */
  method FbxLoaded(o: FbxObject, store: ObjectUrlStore, blobURLs: seq<BlobUrl>, ghost live0: map<BlobUrl, File>,
                   ghost start: nat)
    requires store.Valid()
    requires forall h :: h in live0 ==> h.id < start
    requires MintedSince(blobURLs, start)
    requires store.live.Keys == live0.Keys + HandleSet(blobURLs)
    requires forall h :: h in live0 ==> store.live[h] == live0[h]
    modifies store, {o.root} + MeshMaterials(o.traversal)
    ensures store.Valid()
    ensures store.next == old(store.next)
    ensures o.root.scale == FBX_SCALE
    ensures forall i :: 0 <= i < |o.traversal| && HasSingleMaterial(o.traversal[i]) ==>
              !o.traversal[i].material.material.transparent
    ensures forall m :: m in ArrayMaterials(o.traversal) && m !in MeshMaterials(o.traversal) ==>
              m.transparent == old(m.transparent)
    ensures !SceneManager.YDiff(o.root).Throws? ==>
              && o.root.position == Vector3(Num(0.0), SceneManager.Negated(SceneManager.YDiff(o.root)), Num(0.0))
              && store.live == live0
              && store.revoked == old(store.revoked) + blobURLs
    ensures SceneManager.YDiff(o.root).Throws? ==>
              && o.root.position == ORIGIN
              && store.live == old(store.live)
              && store.revoked == old(store.revoked)
  {
    PrepareFbx(o);
    var threw := SceneManager.ResetPosition(o.root);
    if !threw {
      ReleaseAll(store, blobURLs, live0, start);
    }
  }

  /** The FBX success callback's changes to the object: opaque mesh materials and a 0.01 scale. */
  method PrepareFbx(o: FbxObject)
    modifies {o.root} + MeshMaterials(o.traversal)
    ensures o.root.scale == FBX_SCALE
    ensures forall i :: 0 <= i < |o.traversal| && HasSingleMaterial(o.traversal[i]) ==>
              !o.traversal[i].material.material.transparent
    ensures forall m :: m in ArrayMaterials(o.traversal) && m !in MeshMaterials(o.traversal) ==>
              m.transparent == old(m.transparent)
  {
    ForceOpaque(o.traversal);
    o.root.scale := FBX_SCALE;
  }

  /**
   * `blobURLs.forEach(URL.revokeObjectURL)` after a successful parse: revoking the
   * handles minted since `start` leaves the store's live handles as they were before.
   */
  method ReleaseAll(store: ObjectUrlStore, blobURLs: seq<BlobUrl>, ghost live0: map<BlobUrl, File>, ghost start: nat)
    requires store.Valid()
    requires forall h :: h in live0 ==> h.id < start
    requires MintedSince(blobURLs, start)
    requires store.live.Keys == live0.Keys + HandleSet(blobURLs)
    requires forall h :: h in live0 ==> store.live[h] == live0[h]
    modifies store
    ensures store.Valid()
    ensures store.next == old(store.next)
    ensures store.live == live0
    ensures store.revoked == old(store.revoked) + blobURLs
  {
    ghost var live1 := store.live;
    RevokeEach(store, blobURLs);
    ReleaseRestores(live0, live1, blobURLs, start);
  }

  /**
   * Revoking every handle minted since `start` from a store that held `live0` plus
   * those handles gives back exactly `live0`.
   */
  lemma ReleaseRestores(live0: map<BlobUrl, File>, live1: map<BlobUrl, File>, minted: seq<BlobUrl>, start: nat)
    requires forall h :: h in live0 ==> h.id < start
    requires MintedSince(minted, start)
    requires live1.Keys == live0.Keys + HandleSet(minted)
    requires forall h :: h in live0 ==> live1[h] == live0[h]
    ensures live1 - HandleSet(minted) == live0
  {
    var after := live1 - HandleSet(minted);
    forall h | h in HandleSet(minted)
      ensures h !in live0
    {
      var i :| 0 <= i < |minted| && minted[i] == h;
    }
    assert after.Keys == live0.Keys;
  }
}
