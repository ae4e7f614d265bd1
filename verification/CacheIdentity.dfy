/**
 The identity of a boot-cache overlay and the portable cache key
 (src/beetroot/vm/boot_cache.py lines 117-193, scripts/vm_cache_key.py): which
 bytes are hashed, and what equal bytes say about the inputs. The hash over
 those bytes is taken to be injective, so an identity is its preimage.
 */
module CacheIdentity {
  import opened Prelude
  import opened Text

  /** A file's basename and the digest of its contents. */
  datatype Pair = Pair(name: string, digest: string)

  predicate PairLe(p: Pair, q: Pair) {
    if p.name == q.name then LexLe(p.digest, q.digest) else LexLe(p.name, q.name)
  }

  predicate Sorted(ps: seq<Pair>) { forall i, j | 0 <= i < j < |ps| :: PairLe(ps[i], ps[j]) }

  lemma PairTotal(p: Pair, q: Pair)
    ensures PairLe(p, q) || PairLe(q, p)
    ensures PairLe(p, q) && PairLe(q, p) ==> p == q
  {
    LexTotal(p.name, q.name);
    LexTotal(p.digest, q.digest);
  }

  lemma PairTransitive(p: Pair, q: Pair, r: Pair)
    requires PairLe(p, q) && PairLe(q, r)
    ensures PairLe(p, r)
  {
    if p.name == q.name == r.name { LexTransitive(p.digest, q.digest, r.digest); }
    else if p.name != q.name && q.name != r.name {
      LexTransitive(p.name, q.name, r.name);
      LexTotal(p.name, q.name);
    }
  }

  // ---- Sorting ------------------------------------------------------------------

  function Insert(p: Pair, ps: seq<Pair>): (r: seq<Pair>)
    ensures multiset(r) == multiset(ps) + multiset{p}
  {
    if ps == [] || PairLe(p, ps[0]) then [p] + ps
    else (assert ps == [ps[0]] + ps[1..]; [ps[0]] + Insert(p, ps[1..]))
  }

  function Sort(ps: seq<Pair>): (r: seq<Pair>)
    ensures multiset(r) == multiset(ps)
  {
    if ps == [] then [] else (assert ps == [ps[0]] + ps[1..]; Insert(ps[0], Sort(ps[1..])))
  }

  lemma {:induction false} InsertSorted(p: Pair, ps: seq<Pair>)
    requires Sorted(ps)
    ensures Sorted(Insert(p, ps))
  {
    if ps == [] {
    } else {
      if PairLe(p, ps[0]) {
        forall k | 0 < k < |ps| ensures PairLe(p, ps[k]) { PairTransitive(p, ps[0], ps[k]); }
      } else {
        InsertSorted(p, ps[1..]);
        PairTotal(p, ps[0]);
        var r := Insert(p, ps[1..]);
        forall k | 0 <= k < |r| ensures PairLe(ps[0], r[k]) {
          assert r[k] in multiset(r);
          assert r[k] == p || r[k] in ps[1..];
        }
      }
    }
  }

  lemma {:induction false} SortSorts(ps: seq<Pair>)
    ensures Sorted(Sort(ps))
  {
    if ps == [] {
    } else {
      SortSorts(ps[1..]);
      InsertSorted(ps[0], Sort(ps[1..]));
    }
  }

  lemma HeadLeast(a: seq<Pair>, p: Pair)
    requires Sorted(a) && p in a
    ensures PairLe(a[0], p)
  {
    PairTotal(a[0], a[0]);
  }

  lemma SameTails(a: seq<Pair>, b: seq<Pair>)
    requires multiset(a) == multiset(b) && a != [] && b != [] && a[0] == b[0]
    ensures multiset(a[1..]) == multiset(b[1..])
  {
    assert a == [a[0]] + a[1..] && b == [b[0]] + b[1..];
    assert multiset(a[1..]) == multiset(a) - multiset{a[0]};
    assert multiset(b[1..]) == multiset(b) - multiset{b[0]};
  }

  /** Sorted sequences over the same pairs are the same sequence. */
  lemma {:induction false} SortedUnique(a: seq<Pair>, b: seq<Pair>)
    requires Sorted(a) && Sorted(b) && multiset(a) == multiset(b)
    ensures a == b
  {
    assert |multiset(a)| == |a| && |multiset(b)| == |b|;
    if a == [] {
    } else {
      assert a[0] in multiset(b) && b[0] in multiset(a);
      HeadLeast(a, b[0]);
      HeadLeast(b, a[0]);
      PairTotal(a[0], b[0]);
      SameTails(a, b);
      SortedUnique(a[1..], b[1..]);
      assert a == [a[0]] + a[1..] && b == [b[0]] + b[1..];
    }
  }

  // ---- The bytes that are hashed ----------------------------------------------------

  predicate Plain(ps: seq<Pair>) { forall p | p in ps :: NulFree(p.name) && NulFree(p.digest) }

  function PairFields(ps: seq<Pair>): seq<string> {
    if ps == [] then [] else [ps[0].name, ps[0].digest] + PairFields(ps[1..])
  }

  function Preimage(ps: seq<Pair>, extra: seq<string>): string {
    Terminated(PairFields(Sort(ps)) + extra)
  }

  lemma {:induction false} PairFieldsShape(ps: seq<Pair>)
    ensures |PairFields(ps)| == 2 * |ps|
    ensures Plain(ps) ==> forall f | f in PairFields(ps) :: NulFree(f)
  {
    if ps == [] {
    } else {
      PairFieldsShape(ps[1..]);
      assert Plain(ps) ==> Plain(ps[1..]) && ps[0] in ps;
    }
  }

  lemma {:induction false} PairFieldsInjective(a: seq<Pair>, b: seq<Pair>)
    requires PairFields(a) == PairFields(b)
    ensures a == b
  {
    PairFieldsShape(a);
    PairFieldsShape(b);
    if a == [] {
    } else {
      var f, g := PairFields(a), PairFields(b);
      assert f[0] == a[0].name && f[1] == a[0].digest && g[0] == b[0].name && g[1] == b[0].digest;
      assert f[2..] == PairFields(a[1..]) && g[2..] == PairFields(b[1..]);
      PairFieldsInjective(a[1..], b[1..]);
      assert a == [a[0]] + a[1..] && b == [b[0]] + b[1..];
    }
  }

  /** Equal bytes mean the same pairs with the same multiplicities and the same trailing fields, and conversely. */
  lemma PreimageEqualExactly(a: seq<Pair>, x: seq<string>, b: seq<Pair>, y: seq<string>)
    requires Plain(a) && Plain(b) && |x| == |y|
    requires forall f | f in x + y :: NulFree(f)
    ensures Preimage(a, x) == Preimage(b, y) <==> multiset(a) == multiset(b) && x == y
  {
    SortSorts(a);
    SortSorts(b);
    if Preimage(a, x) == Preimage(b, y) {
      var f, g := PairFields(Sort(a)), PairFields(Sort(b));
      SortPlain(a);
      SortPlain(b);
      PairFieldsShape(Sort(a));
      PairFieldsShape(Sort(b));
      TerminatedInjective(f + x, g + y);
      assert |f| == |f + x| - |x| == |g|;
      assert f == (f + x)[..|f|] == (g + y)[..|g|] == g;
      assert x == (f + x)[|f|..] == (g + y)[|g|..] == y;
      PairFieldsInjective(Sort(a), Sort(b));
    }
    if multiset(a) == multiset(b) { SortedUnique(Sort(a), Sort(b)); }
  }

  lemma SortPlain(ps: seq<Pair>)
    requires Plain(ps)
    ensures Plain(Sort(ps))
  {
    forall p | p in Sort(ps) ensures p in ps { assert p in multiset(Sort(ps)); }
  }

  // ---- The identity of an overlay -----------------------------------------------------

  datatype Accel = Kvm | Tcg

  function AccelName(a: Accel): string { if a.Kvm? then "kvm" else "tcg" }

  datatype Artifact = Artifact(path: string, pair: Pair)

  /** What an overlay is built from. The resolved geometry is concrete and positive. */
  datatype Inputs = Inputs(kernel: Artifact, rootfs: Artifact, smp: nat, memoryMib: nat, accel: Accel)

  predicate PlainInputs(i: Inputs) { Plain([i.kernel.pair, i.rootfs.pair]) }

  /** One digest per path: naming the same file twice counts once. */
  function Pairs(i: Inputs): seq<Pair> {
    if i.kernel.path == i.rootfs.path then [i.kernel.pair] else [i.kernel.pair, i.rootfs.pair]
  }

  function Geometry(i: Inputs): seq<string> { [Dec(i.smp), Dec(i.memoryMib), AccelName(i.accel)] }

  function Identity(i: Inputs): string { Preimage(Pairs(i), Geometry(i)) }

  predicate SameGeometry(a: Inputs, b: Inputs) {
    a.smp == b.smp && a.memoryMib == b.memoryMib && a.accel == b.accel
  }

  lemma GeometryFields(a: Inputs, b: Inputs)
    ensures Geometry(a) == Geometry(b) <==> SameGeometry(a, b)
    ensures forall f | f in Geometry(a) :: NulFree(f)
  {
    DecReadsBack(a.smp);
    DecReadsBack(a.memoryMib);
    if Geometry(a) == Geometry(b) {
      assert Geometry(a)[0] == Geometry(b)[0] && Geometry(a)[1] == Geometry(b)[1] && Geometry(a)[2] == Geometry(b)[2];
      DecInjective(a.smp, b.smp);
      DecInjective(a.memoryMib, b.memoryMib);
      assert AccelName(a.accel)[0] == AccelName(b.accel)[0];
    }
  }

  lemma IdentityEqualExactly(a: Inputs, b: Inputs)
    requires PlainInputs(a) && PlainInputs(b)
    ensures Identity(a) == Identity(b) <==> SameGeometry(a, b) && multiset(Pairs(a)) == multiset(Pairs(b))
  {
    GeometryFields(a, b);
    GeometryFields(b, a);
    assert Plain(Pairs(a)) && Plain(Pairs(b)) by {
      assert a.kernel.pair in [a.kernel.pair, a.rootfs.pair] && a.rootfs.pair in [a.kernel.pair, a.rootfs.pair];
      assert b.kernel.pair in [b.kernel.pair, b.rootfs.pair] && b.rootfs.pair in [b.kernel.pair, b.rootfs.pair];
    }
    PreimageEqualExactly(Pairs(a), Geometry(a), Pairs(b), Geometry(b));
  }

  predicate SameFiles(a: Inputs, b: Inputs) { a.kernel.pair == b.kernel.pair && a.rootfs.pair == b.rootfs.pair }

  predicate RolesSwapped(a: Inputs, b: Inputs) {
    a.kernel.pair == b.rootfs.pair && a.rootfs.pair == b.kernel.pair
  }

  lemma TwoPairs(p: Pair, q: Pair, r: Pair, s: Pair)
    ensures multiset([p, q]) == multiset([r, s]) <==> (p == r && q == s) || (p == s && q == r)
  {
    assert multiset([p, q]) == multiset{p, q} && multiset([r, s]) == multiset{r, s};
    if multiset([p, q]) == multiset([r, s]) {
      assert p in multiset{r, s} && q in multiset{r, s};
      assert multiset{p, q}[r] == multiset{r, s}[r] && multiset{p, q}[s] == multiset{r, s}[s];
    }
  }

  predicate OnePath(a: Inputs) { a.kernel.path == a.rootfs.path }

  /** Both name one file twice, and it is the same; or both name two, and they are the same, perhaps exchanged. */
  predicate SameUpToRoles(a: Inputs, b: Inputs) {
    && (OnePath(a) <==> OnePath(b))
    && if OnePath(a) then a.kernel.pair == b.kernel.pair else SameFiles(a, b) || RolesSwapped(a, b)
  }

  lemma SinglePair(p: Pair, q: Pair)
    ensures multiset([p]) == multiset([q]) <==> p == q
  {
    assert p in multiset([p]);
  }

  lemma SamePairsExactly(a: Inputs, b: Inputs)
    ensures multiset(Pairs(a)) == multiset(Pairs(b)) <==> SameUpToRoles(a, b)
  {
    if OnePath(a) && OnePath(b) {
      SinglePair(a.kernel.pair, b.kernel.pair);
    } else if OnePath(a) || OnePath(b) {
      assert |multiset(Pairs(a))| == |Pairs(a)| && |multiset(Pairs(b))| == |Pairs(b)|;
    } else {
      TwoPairs(a.kernel.pair, a.rootfs.pair, b.kernel.pair, b.rootfs.pair);
    }
  }

  /** Equal identities mean equal inputs, up to exchanging the two roles, and conversely. */
  lemma IdentityPinsInputs(a: Inputs, b: Inputs)
    requires PlainInputs(a) && PlainInputs(b)
    ensures Identity(a) == Identity(b) <==> SameGeometry(a, b) && SameUpToRoles(a, b)
  {
    hide Identity, PlainInputs, SameUpToRoles, Pairs;
    IdentityEqualExactly(a, b);
    SamePairsExactly(a, b);
  }

  /** The roles are not recorded: exchanging two different files keeps the identity. */
  lemma SwapIsInvisible(a: Inputs)
    requires PlainInputs(a) && a.kernel.path != a.rootfs.path && a.kernel.pair != a.rootfs.pair
    ensures var b := a.(kernel := a.rootfs, rootfs := a.kernel);
      Identity(b) == Identity(a) && !SameFiles(a, b)
  {
    var b := a.(kernel := a.rootfs, rootfs := a.kernel);
    assert PlainInputs(b) by {
      assert a.kernel.pair in [a.kernel.pair, a.rootfs.pair] && a.rootfs.pair in [a.kernel.pair, a.rootfs.pair];
    }
    IdentityPinsInputs(a, b);
  }

  // ---- Hashing files, memoised ------------------------------------------------------------

  datatype FileState = FileState(content: seq<int>, mtime: int)

  type Key = (string, nat, int)

  function KeyOf(path: string, f: FileState): Key { (path, |f.content|, f.mtime) }

  /** Path, size and modification time fix the contents, over every version a file ever had. */
  ghost predicate Faithful(versions: set<(string, FileState)>) {
    forall v, w | v in versions && w in versions && v.0 == w.0 ::
      |v.1.content| == |w.1.content| && v.1.mtime == w.1.mtime ==> v.1.content == w.1.content
  }

  class Hasher {
    const sha: seq<int> -> string
    var cache: map<Key, string>
    ghost var versions: set<(string, FileState)>

    constructor (sha: seq<int> -> string)
      ensures this.sha == sha && cache == map[] && versions == {} && Valid()
    {
      this.sha := sha;
      cache := map[];
      versions := {};
    }

    /** Every memoised digest is that of some version seen under its key. */
    ghost predicate Valid()
      reads this
    {
      forall k | k in cache :: exists v | v in versions :: KeyOf(v.0, v.1) == k && cache[k] == sha(v.1.content)
    }

    /** The memo never changes the answer: the result is the digest of the bytes now in the file. */
    method HashFile(path: string, f: FileState) returns (digest: string)
      requires Valid() && Faithful(versions + {(path, f)})
      modifies this
      ensures Valid() && versions == old(versions) + {(path, f)}
      ensures digest == sha(f.content)
      ensures KeyOf(path, f) in cache && forall k | k in old(cache) :: k in cache && cache[k] == old(cache[k])
    {
      var key := KeyOf(path, f);
      versions := versions + {(path, f)};
      if key in cache {
        ghost var v :| v in versions && KeyOf(v.0, v.1) == key && cache[key] == sha(v.1.content);
        return cache[key];
      }
      digest := sha(f.content);
      cache := cache[key := digest];
      assert (path, f) in versions && KeyOf((path, f).0, (path, f).1) == key;
    }
  }

  /** The files a key is computed over, with the digest and basename functions in use. */
  datatype Disk = Disk(files: map<string, FileState>, sha: seq<int> -> string, basename: string -> string) {
    function PairOf(path: string): Pair {
      Pair(basename(path), if path in files then sha(files[path].content) else "")
    }

    function Pairs(paths: seq<string>): seq<Pair> {
      if paths == [] then [] else Pairs(paths[..|paths| - 1]) + [PairOf(paths[|paths| - 1])]
    }

    predicate Has(paths: seq<string>) { forall p | p in paths :: p in files }

    ghost function Versions(): set<(string, FileState)> { set p | p in files :: (p, files[p]) }
  }

  function Distinct(paths: seq<string>): (r: seq<string>)
    ensures forall p | p in r :: p in paths
    ensures forall p | p in paths :: p in r
  {
    if paths == [] then []
    else
      var front, last := Distinct(paths[..|paths| - 1]), paths[|paths| - 1];
      if last in front then front else front + [last]
  }

  /** A digest for every distinct path, in order of first appearance; `None` for a missing file. */
  method DigestAll(h: Hasher, d: Disk, paths: seq<string>) returns (r: Option<seq<Pair>>)
    requires h.Valid() && h.sha == d.sha && Faithful(h.versions + d.Versions())
    modifies h
    ensures h.Valid() && h.versions <= old(h.versions) + d.Versions()
    ensures r.Some? <==> d.Has(paths)
    ensures r.Some? ==> r.value == d.Pairs(Distinct(paths))
  {
    var seen: seq<string> := [];
    var pairs: seq<Pair> := [];
    for n := 0 to |paths|
      invariant h.Valid() && h.versions <= old(h.versions) + d.Versions()
      invariant d.Has(paths[..n])
      invariant seen == Distinct(paths[..n])
      invariant pairs == d.Pairs(seen)
    {
      var path := paths[n];
      assert paths[..n + 1][..n] == paths[..n];
      if path !in d.files { return None; }
      if path !in seen {
        assert (path, d.files[path]) in d.Versions();
        var digest := h.HashFile(path, d.files[path]);
        assert (seen + [path])[..|seen|] == seen;
        seen, pairs := seen + [path], pairs + [Pair(d.basename(path), digest)];
      }
    }
    assert paths[..|paths|] == paths;
    return Some(pairs);
  }

  /** The fold over sorted inputs: each update appends a field and its terminator. */
  method FoldPairs(sorted: seq<Pair>) returns (combined: string)
    ensures combined == Terminated(PairFields(sorted))
  {
    combined := "";
    assert PairFields(sorted[..0]) == [] && Terminated([]) == "";
    hide PairFields, Terminated;
    for n := 0 to |sorted|
      invariant combined == Terminated(PairFields(sorted[..n]))
    {
      PairFieldsSnoc(sorted[..n], sorted[n]);
      assert sorted[..n + 1] == sorted[..n] + [sorted[n]];
      TerminatedAppend(PairFields(sorted[..n]), [sorted[n].name, sorted[n].digest]);
      TwoFields(sorted[n].name, sorted[n].digest);
      combined := combined + sorted[n].name + [NUL] + sorted[n].digest + [NUL];
    }
    assert sorted[..|sorted|] == sorted;
  }

  lemma TwoFields(a: string, b: string)
    ensures Terminated([a, b]) == a + [NUL] + b + [NUL]
  {
    assert [a, b][1..] == [b] && [b][1..] == [];
    assert Terminated([b]) == b + [NUL] + Terminated([]);
  }

  lemma {:induction false} PairFieldsSnoc(ps: seq<Pair>, p: Pair)
    ensures PairFields(ps + [p]) == PairFields(ps) + [p.name, p.digest]
  {
    if ps == [] {
      assert [p][1..] == [];
    } else {
      assert (ps + [p])[1..] == ps[1..] + [p];
      PairFieldsSnoc(ps[1..], p);
    }
  }

  method ComputeCacheKey(h: Hasher, d: Disk, paths: seq<string>) returns (key: Option<string>)
    requires h.Valid() && h.sha == d.sha && Faithful(h.versions + d.Versions())
    modifies h
    ensures h.Valid()
    ensures key.Some? <==> paths != [] && d.Has(paths)
    ensures key.Some? ==> key.value == Preimage(d.Pairs(Distinct(paths)), [])
  {
    if paths == [] { return None; }
    var pairs := DigestAll(h, d, paths);
    if pairs.None? { return None; }
    var combined := FoldPairs(Sort(pairs.value));
    assert PairFields(Sort(pairs.value)) + [] == PairFields(Sort(pairs.value));
    return Some(combined);
  }

  lemma GeometryText(i: Inputs)
    ensures Terminated(Geometry(i)) == Dec(i.smp) + [NUL] + Dec(i.memoryMib) + [NUL] + AccelName(i.accel) + [NUL]
  {
    hide Dec, AccelName;
    assert Geometry(i) == [Dec(i.smp), Dec(i.memoryMib)] + [AccelName(i.accel)];
    TerminatedAppend([Dec(i.smp), Dec(i.memoryMib)], [AccelName(i.accel)]);
    TwoFields(Dec(i.smp), Dec(i.memoryMib));
    assert Terminated([AccelName(i.accel)]) == AccelName(i.accel) + [NUL] + Terminated([]);
  }

  method BaseIdentity(i: Inputs) returns (id: string)
    ensures id == Identity(i)
  {
    hide Sort, Pairs, PairFields, Terminated, Geometry, Dec, AccelName;
    id := FoldPairs(Sort(Pairs(i)));
    TerminatedAppend(PairFields(Sort(Pairs(i))), Geometry(i));
    GeometryText(i);
    id := id + Dec(i.smp) + [NUL] + Dec(i.memoryMib) + [NUL] + AccelName(i.accel) + [NUL];
  }

  // ---- The bytes, spelled out -------------------------------------------------------------

  /** Two files whose pairs are in order, then the geometry: every field is followed by a NUL. */
  lemma IdentityBytes(i: Inputs)
    requires i.kernel.path != i.rootfs.path
    requires if i.kernel.pair.name == i.rootfs.pair.name then LexLe(i.kernel.pair.digest, i.rootfs.pair.digest)
             else LexLe(i.kernel.pair.name, i.rootfs.pair.name)
    ensures Identity(i) == i.kernel.pair.name + [NUL] + i.kernel.pair.digest + [NUL]
                           + i.rootfs.pair.name + [NUL] + i.rootfs.pair.digest + [NUL]
                           + Dec(i.smp) + [NUL] + Dec(i.memoryMib) + [NUL]
                           + (if i.accel.Kvm? then "kvm" else "tcg") + [NUL]
  {
    var p, q := i.kernel.pair, i.rootfs.pair;
    TwoSorted(p, q);
    hide Sort, Dec, LexLe, AccelName;
    var fields := [p.name, p.digest] + [q.name, q.digest];
    assert fields == [p.name, p.digest, q.name, q.digest];
    hide PairFields;
    TerminatedAppend(fields, Geometry(i));
    TerminatedAppend([p.name, p.digest], [q.name, q.digest]);
    hide Terminated, Geometry;
    TwoFields(p.name, p.digest);
    TwoFields(q.name, q.digest);
    GeometryText(i);
    assert AccelName(i.accel) == if i.accel.Kvm? then "kvm" else "tcg" by { AccelText(i.accel); }
    Regroup(p.name + [NUL] + p.digest + [NUL], q.name, q.digest, Dec(i.smp), Dec(i.memoryMib), AccelName(i.accel));
  }

  lemma AccelText(a: Accel)
    ensures AccelName(a) == if a.Kvm? then "kvm" else "tcg"
  {
  }

  lemma Regroup(first: string, a: string, b: string, c: string, d: string, e: string)
    ensures first + (a + [NUL] + b + [NUL]) + (c + [NUL] + d + [NUL] + e + [NUL])
         == first + a + [NUL] + b + [NUL] + c + [NUL] + d + [NUL] + e + [NUL]
  {
    assert first + (a + [NUL] + b + [NUL]) == first + a + [NUL] + b + [NUL];
    var front := first + a + [NUL] + b + [NUL];
    assert front + (c + [NUL] + d + [NUL] + e + [NUL]) == front + c + [NUL] + d + [NUL] + e + [NUL];
  }

  lemma TwoSorted(p: Pair, q: Pair)
    requires PairLe(p, q)
    ensures PairFields(Sort([p, q])) == [p.name, p.digest, q.name, q.digest]
  {
    hide LexLe;
    assert [p, q][1..] == [q] && [q][1..] == [];
    assert Sort([q]) == Insert(q, []) == [q];
    assert Sort([p, q]) == Insert(p, [q]) == [p] + [q] == [p, q];
    assert PairFields([q]) == [q.name, q.digest] + PairFields([]) == [q.name, q.digest];
    assert PairFields([p, q]) == [p.name, p.digest] + PairFields([q]);
  }

  /** Each named file, once: its basename and what is in it. */
  ghost function Contents(d: Disk, paths: seq<string>): seq<(string, seq<int>)>
    requires d.Has(paths)
  {
    seq(|paths|, k requires 0 <= k < |paths| => (d.basename(paths[k]), d.files[paths[k]].content))
  }

  lemma {:induction false} PairsPointwise(d: Disk, paths: seq<string>)
    requires d.Has(paths)
    ensures |d.Pairs(paths)| == |paths|
    ensures forall k | 0 <= k < |paths| ::
              d.Pairs(paths)[k] == Pair(d.basename(paths[k]), d.sha(d.files[paths[k]].content))
  {
    if paths == [] {
    } else {
      PairsPointwise(d, paths[..|paths| - 1]);
    }
  }

  function Digested(sha: seq<int> -> string, v: (string, seq<int>)): Pair { Pair(v.0, sha(v.1)) }

  lemma {:induction false} CountDigested(sha: seq<int> -> string, vs: seq<(string, seq<int>)>, ps: seq<Pair>,
                                         v: (string, seq<int>))
    requires forall x, y | sha(x) == sha(y) :: x == y
    requires |ps| == |vs| && forall k | 0 <= k < |vs| :: ps[k] == Digested(sha, vs[k])
    ensures multiset(ps)[Digested(sha, v)] == multiset(vs)[v]
  {
    if vs == [] {
    } else {
      CountDigested(sha, vs[1..], ps[1..], v);
      assert vs == [vs[0]] + vs[1..] && ps == [ps[0]] + ps[1..];
      assert multiset(vs) == multiset{vs[0]} + multiset(vs[1..]);
      assert multiset(ps) == multiset{ps[0]} + multiset(ps[1..]);
    }
  }

  lemma DigestedAlike(sha: seq<int> -> string, vs: seq<(string, seq<int>)>, ps: seq<Pair>,
                      ws: seq<(string, seq<int>)>, qs: seq<Pair>)
    requires forall x, y | sha(x) == sha(y) :: x == y
    requires |ps| == |vs| && forall k | 0 <= k < |vs| :: ps[k] == Digested(sha, vs[k])
    requires |qs| == |ws| && forall k | 0 <= k < |ws| :: qs[k] == Digested(sha, ws[k])
    ensures multiset(ps) == multiset(qs) <==> multiset(vs) == multiset(ws)
  {
    forall v ensures multiset(ps)[Digested(sha, v)] == multiset(vs)[v]
                  && multiset(qs)[Digested(sha, v)] == multiset(ws)[v]
    {
      CountDigested(sha, vs, ps, v);
      CountDigested(sha, ws, qs, v);
    }
    if multiset(ps) == multiset(qs) {
      forall v ensures multiset(vs)[v] == multiset(ws)[v] {}
    }
    if multiset(vs) == multiset(ws) {
      forall p ensures multiset(ps)[p] == multiset(qs)[p] {
        if p in ps { var k :| 0 <= k < |ps| && ps[k] == p; assert p == Digested(sha, vs[k]); }
        if p in qs { var k :| 0 <= k < |qs| && qs[k] == p; assert p == Digested(sha, ws[k]); }
      }
    }
  }

  /** Two keys, perhaps of two checkouts, agree exactly when the same basenames go with the same contents, as often. */
  lemma KeyEqualExactly(d: Disk, a: seq<string>, e: Disk, b: seq<string>)
    requires d.Has(a) && e.Has(b) && d.sha == e.sha && forall x, y | d.sha(x) == d.sha(y) :: x == y
    requires Plain(d.Pairs(Distinct(a))) && Plain(e.Pairs(Distinct(b)))
    ensures Preimage(d.Pairs(Distinct(a)), []) == Preimage(e.Pairs(Distinct(b)), [])
       <==> multiset(Contents(d, Distinct(a))) == multiset(Contents(e, Distinct(b)))
  {
    hide Preimage, Distinct, Disk.Pairs, Plain;
    var x, y := Distinct(a), Distinct(b);
    PairsPointwise(d, x);
    PairsPointwise(e, y);
    DigestedAlike(d.sha, Contents(d, x), d.Pairs(x), Contents(e, y), e.Pairs(y));
    PreimageEqualExactly(d.Pairs(x), [], e.Pairs(y), []);
  }

  // ---- Independence of argument order -------------------------------------------------------

  predicate NoRepeats(a: seq<string>) { forall i, j | 0 <= i < j < |a| :: a[i] != a[j] }

  lemma {:induction false} DistinctNoRepeats(paths: seq<string>)
    ensures NoRepeats(Distinct(paths))
  {
    if paths == [] {
    } else {
      DistinctNoRepeats(paths[..|paths| - 1]);
    }
  }

  lemma {:induction false} CountOnce(a: seq<string>)
    requires NoRepeats(a)
    ensures forall p :: multiset(a)[p] == if p in a then 1 else 0
  {
    if a == [] {
    } else {
      CountOnce(a[1..]);
      assert a == [a[0]] + a[1..];
      assert multiset(a) == multiset{a[0]} + multiset(a[1..]);
    }
  }

  lemma PairsSnoc(d: Disk, a: seq<string>, x: string)
    ensures d.Pairs(a + [x]) == d.Pairs(a) + [d.PairOf(x)]
  {
    assert (a + [x])[..|a|] == a;
  }

  lemma {:induction false} PairsAppend(d: Disk, a: seq<string>, b: seq<string>)
    ensures d.Pairs(a + b) == d.Pairs(a) + d.Pairs(b)
  {
    assert d.Pairs([]) == [];
    hide Disk.Pairs, Disk.PairOf;
    if b == [] {
      assert a + b == a;
    } else {
      var front, last := b[..|b| - 1], b[|b| - 1];
      PairsAppend(d, a, front);
      PairsSnoc(d, a + front, last);
      PairsSnoc(d, front, last);
      assert a + b == a + front + [last] && b == front + [last];
    }
  }

  lemma PairsMove(d: Disk, pre: seq<string>, x: string, post: seq<string>)
    ensures multiset(d.Pairs(pre + [x] + post)) == multiset(d.Pairs(pre + post)) + multiset{d.PairOf(x)}
  {
    PairsAppend(d, pre + [x], post);
    PairsSnoc(d, pre, x);
    PairsAppend(d, pre, post);
  }

  lemma Parts<T>(pre: seq<T>, x: T, post: seq<T>)
    ensures multiset(pre + [x] + post) == multiset(pre + post) + multiset{x}
  {
  }

  lemma Cancel<T>(m: multiset<T>, n: multiset<T>, x: T)
    requires m + multiset{x} == n + multiset{x}
    ensures m == n
  {
    assert (m + multiset{x}) - multiset{x} == m;
    assert (n + multiset{x}) - multiset{x} == n;
  }

  lemma Extract(a: seq<string>, b: seq<string>, k: nat)
    requires multiset(a) == multiset(b) && a != [] && k < |b| && b[k] == a[|a| - 1]
    ensures multiset(a[..|a| - 1]) == multiset(b[..k] + b[k + 1..])
  {
    var front, rest, x := a[..|a| - 1], b[..k] + b[k + 1..], b[k];
    assert a == front + [x] + [] && front + [] == front && b == b[..k] + [x] + b[k + 1..];
    Parts(front, x, []);
    Parts(b[..k], x, b[k + 1..]);
    Cancel(multiset(front), multiset(rest), x);
  }

  lemma {:induction false} PairsPermute(d: Disk, a: seq<string>, b: seq<string>)
    requires multiset(a) == multiset(b)
    ensures multiset(d.Pairs(a)) == multiset(d.Pairs(b))
    decreases |a|
  {
    assert |multiset(a)| == |a| && |multiset(b)| == |b|;
    if a == [] {
    } else {
      var front, last := a[..|a| - 1], a[|a| - 1];
      assert last in multiset(b) by { assert last in multiset(a); }
      var k :| 0 <= k < |b| && b[k] == last;
      Extract(a, b, k);
      assert a == front + [last] + [] && front + [] == front && b == b[..k] + [last] + b[k + 1..];
      hide Disk.Pairs, Disk.PairOf;
      PairsPermute(d, front, b[..k] + b[k + 1..]);
      PairsMove(d, front, last, []);
      PairsMove(d, b[..k], last, b[k + 1..]);
    }
  }

  /** The key depends on which files are named, not on their order or repetition, even when basenames tie. */
  lemma KeyIgnoresOrder(d: Disk, a: seq<string>, b: seq<string>, extra: seq<string>)
    requires forall p :: p in a <==> p in b
    ensures Preimage(d.Pairs(Distinct(a)), extra) == Preimage(d.Pairs(Distinct(b)), extra)
  {
    var x, y := Distinct(a), Distinct(b);
    DistinctNoRepeats(a);
    DistinctNoRepeats(b);
    CountOnce(x);
    CountOnce(y);
    assert multiset(x) == multiset(y);
    PairsPermute(d, x, y);
    SortSorts(d.Pairs(x));
    SortSorts(d.Pairs(y));
    SortedUnique(Sort(d.Pairs(x)), Sort(d.Pairs(y)));
  }
}
