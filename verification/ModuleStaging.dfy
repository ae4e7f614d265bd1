/**
 Staging of module zips (src/beetroot/modules_download.py:239-294): the stale
 zips are wiped, then every configured module is resolved and copied in order under
 a name no earlier module took.
 */
module ModuleStaging {
  import opened Prelude
  import Text

  type Content = string

  /** The `modules` directory of an instance. */
  type Folder = map<string, Content>

  /** What a module entry resolves to: a file elsewhere whose digest, if pinned, is right; a file in the `modules`
      directory itself, with the content whose digest is pinned, if any; or an error. */
  datatype Source =
    | Elsewhere(name: string, content: Content)
    | Beside(name: string, pin: Option<Content>)
    | Unresolvable

  predicate IsZip(name: string) { |name| >= 4 && name[|name| - 4..] == ".zip" }

  predicate EndsWith(s: string, t: string) { |t| <= |s| && s[|s| - |t|..] == t }

  function Wiped(folder: Folder): Folder { map n | n in folder && !IsZip(n) :: folder[n] }

  // ---- Distinct names ------------------------------------------------------------------

  /** The used names a retry of at least this length could still collide with. */
  ghost function AtLeast(used: set<string>, length: nat): set<string> { set u | u in used && length <= |u| }

  /** Terminates for every finite `used`: each retry is longer, so fewer used names can still meet it. */
  function UniqueDestName(name: string, used: set<string>, index: nat): (r: string)
    ensures r !in used && EndsWith(r, name) && (name !in used ==> r == name)
    decreases AtLeast(used, |name|)
  {
    if name !in used then name
    else
      var retry := Text.Dec(index) + "_" + name;
      assert AtLeast(used, |retry|) <= AtLeast(used, |name|) && name in AtLeast(used, |name|);
      UniqueDestName(retry, used, index)
  }

  lemma PrefixKeepsZip(index: nat, name: string)
    ensures IsZip(Text.Dec(index) + "_" + name) == IsZip(name)
  {
    var head := Text.Dec(index) + "_";
    Text.DecReadsBack(index);
    assert '.' !in Text.Dec(index) && '.' !in head;
    var s := head + name;
    if |name| >= 4 {
      assert s[|s| - 4..] == name[|name| - 4..];
    } else if |s| >= 4 {
      assert s[|s| - 4..][0] == head[|s| - 4];
      assert head[|s| - 4] in head;
      assert ".zip"[0] == '.';
    }
  }

  /** The retries keep the extension, so what is staged under a zip name is wiped the next time. */
  lemma {:induction false} UniqueKeepsZip(name: string, used: set<string>, index: nat)
    ensures IsZip(UniqueDestName(name, used, index)) == IsZip(name)
    decreases AtLeast(used, |name|)
  {
    if name !in used {
    } else {
      var retry := Text.Dec(index) + "_" + name;
      assert AtLeast(used, |retry|) <= AtLeast(used, |name|) && name in AtLeast(used, |name|);
      PrefixKeepsZip(index, name);
      UniqueKeepsZip(retry, used, index);
    }
  }

  /** The two tests on names, spelled out. */
  lemma EndsExactly(s: string, t: string)
    ensures EndsWith(s, t) <==> exists p :: s == p + t
    ensures IsZip(s) <==> exists p :: s == p + ".zip"
  {
    if EndsWith(s, t) { assert s == s[..|s| - |t|] + t; }
    if IsZip(s) { assert s == s[..|s| - 4] + ".zip"; }
  }

  /** The name with the module's position and an underscore put in front `m` times. */
  function Prefixed(index: nat, name: string, m: nat): string
    decreases m
  {
    if m == 0 then name else Prefixed(index, Text.Dec(index) + "_" + name, m - 1)
  }

  /** The name chosen is the first of these that is free. */
  lemma {:induction false} FirstFreeName(name: string, used: set<string>, index: nat, m: nat)
    requires Prefixed(index, name, m) !in used && forall j: nat | j < m :: Prefixed(index, name, j) in used
    ensures UniqueDestName(name, used, index) == Prefixed(index, name, m)
    decreases m
  {
    if m == 0 {
    } else {
      var retry := Text.Dec(index) + "_" + name;
      assert Prefixed(index, name, 0) in used;
      forall j: nat | j < m - 1 ensures Prefixed(index, retry, j) in used {
        assert Prefixed(index, name, j + 1) == Prefixed(index, retry, j);
      }
      FirstFreeName(retry, used, index, m - 1);
    }
  }

  // ---- Staging -----------------------------------------------------------------------------

  datatype Outcome = Outcome(folder: Folder, staged: seq<string>, ok: bool)

  function Names(staged: seq<string>): set<string> { set n | n in staged }

  function ContentOf(source: Source, folder: Folder): Option<Content> {
    match source
    case Elsewhere(_, content) => Some(content)
    case Beside(name, pin) =>
      if name in folder && (pin.None? || pin.value == folder[name]) then Some(folder[name]) else None
    case Unresolvable => None
  }

  /** One module: resolve, choose a name, copy; copying a file onto itself is an error. */
  function StageOne(source: Source, index: nat, so: Outcome): Outcome {
    var content := ContentOf(source, so.folder);
    if !so.ok || content.None? then so.(ok := false)
    else
      var dst := UniqueDestName(source.name, Names(so.staged), index);
      if source.Beside? && dst == source.name then so.(ok := false)
      else Outcome(so.folder[dst := content.value], so.staged + [dst], true)
  }

  function StageUpTo(sources: seq<Source>, folder: Folder, k: nat): Outcome
    requires k <= |sources|
  {
    if k == 0 then Outcome(Wiped(folder), [], true)
    else StageOne(sources[k - 1], k - 1, StageUpTo(sources, folder, k - 1))
  }

  function StageAll(sources: seq<Source>, folder: Folder): Outcome { StageUpTo(sources, folder, |sources|) }

  lemma StageUpToStep(sources: seq<Source>, folder: Folder, k: nat)
    requires k < |sources|
    ensures StageUpTo(sources, folder, k + 1) == StageOne(sources[k], k, StageUpTo(sources, folder, k))
  {
  }

  class Modules {
    var folder: Folder

    /** Resolve one module and copy it in; `None` leaves the directory alone. */
    method StageNext(source: Source, index: nat, staged: seq<string>, used: set<string>) returns (dst: Option<string>)
      requires used == Names(staged)
      modifies this
      ensures StageOne(source, index, Outcome(old(folder), staged, true))
              == Outcome(folder, if dst.Some? then staged + [dst.value] else staged, dst.Some?)
    {
      hide UniqueDestName;
      var content := ContentOf(source, folder);
      if content.None? { return None; }
      var name := UniqueDestName(source.name, used, index);
      if source.Beside? && name == source.name { return None; }
      folder := folder[name := content.value];
      return Some(name);
    }

    /** `stage_for_instance`: an error leaves the wipe and the copies made before it. */
    method StageForInstance(sources: seq<Source>) returns (r: Option<seq<string>>)
      modifies this
      ensures r.Some? ==> StageAll(sources, old(folder)) == Outcome(folder, r.value, true)
      ensures r.None? ==> !StageAll(sources, old(folder)).ok && StageAll(sources, old(folder)).folder == folder
    {
      ghost var start := folder;
      folder := map n | n in folder && !IsZip(n) :: folder[n];
      var staged: seq<string> := [];
      var used: set<string> := {};
      assert StageUpTo(sources, start, 0) == Outcome(folder, staged, true);
      hide UniqueDestName, IsZip, StageUpTo, StageOne, Wiped, ContentOf, Names;
      NoNames();
      for index := 0 to |sources|
        invariant StageUpTo(sources, start, index) == Outcome(folder, staged, true)
        invariant used == Names(staged)
      {
        StageUpToStep(sources, start, index);
        var dst := StageNext(sources[index], index, staged, used);
        if dst.None? {
          FailureSticks(sources, start, index + 1);
          return None;
        }
        NamesGrow(staged, dst.value);
        used := used + {dst.value};
        staged := staged + [dst.value];
      }
      return Some(staged);
    }
  }

  lemma NoNames()
    ensures Names([]) == {}
  {
  }

  lemma NamesGrow(staged: seq<string>, dst: string)
    ensures Names(staged + [dst]) == Names(staged) + {dst}
  {
  }

  lemma {:induction false} FailureSticks(sources: seq<Source>, folder: Folder, k: nat)
    requires k <= |sources| && !StageUpTo(sources, folder, k).ok
    ensures StageAll(sources, folder) == StageUpTo(sources, folder, k)
    decreases |sources| - k
  {
    if k == |sources| {
    } else {
      FailureSticks(sources, folder, k + 1);
    }
  }

  // ---- What staging promises ------------------------------------------------------------------

  ghost predicate Distinct(names: seq<string>) { forall i, j | 0 <= i < j < |names| :: names[i] != names[j] }

  /** The i-th staged file holds what an earlier one, staged under `name`, holds. */
  predicate CopiesEarlier(o: Outcome, i: nat, name: string) {
    i < |o.staged| && o.staged[i] in o.folder
    && exists j :: 0 <= j < i && o.staged[j] == name && name in o.folder && o.folder[o.staged[i]] == o.folder[name]
  }

  /** One file per module, in order, under pairwise distinct names ending in the source's; nothing else is touched. */
  ghost predicate StagedInOrder(sources: seq<Source>, folder: Folder, k: nat, o: Outcome)
    requires k <= |sources|
  {
    && |o.staged| == k && Distinct(o.staged)
    && o.folder.Keys == Wiped(folder).Keys + Names(o.staged)
    && (forall n | n in Wiped(folder) && n !in o.staged :: o.folder[n] == folder[n])
    && forall i | 0 <= i < k :: && sources[i] != Unresolvable
                                && EndsWith(o.staged[i], sources[i].name)
                                && IsZip(o.staged[i]) == IsZip(sources[i].name)
                                && (sources[i].Elsewhere? ==> o.folder[o.staged[i]] == sources[i].content)
                                && (sources[i].Beside? ==> CopiesEarlier(o, i, sources[i].name))
                                && (sources[i].Beside? && sources[i].pin.Some? ==>
                                  o.folder[o.staged[i]] == sources[i].pin.value)
  }

  lemma NotStaged(staged: seq<string>, dst: string)
    requires dst !in Names(staged) && Distinct(staged)
    ensures Distinct(staged + [dst]) && forall n | n in staged :: n in Names(staged) && n != dst
  {
    forall i | 0 <= i < |staged| ensures staged[i] != dst { assert staged[i] in Names(staged); }
  }

  /** One more module, under a new name. */
  lemma OneMore(sources: seq<Source>, folder: Folder, k: nat, o: Outcome, dst: string, content: Content)
    requires k < |sources| && StagedInOrder(sources, folder, k, o) && dst !in Names(o.staged)
    requires sources[k] != Unresolvable && EndsWith(dst, sources[k].name) && IsZip(dst) == IsZip(sources[k].name)
    requires sources[k].Elsewhere? ==> content == sources[k].content
    requires sources[k].Beside? ==> && sources[k].name in Names(o.staged) && content == o.folder[sources[k].name]
                                    && (sources[k].pin.Some? ==> content == sources[k].pin.value)
    ensures StagedInOrder(sources, folder, k + 1, Outcome(o.folder[dst := content], o.staged + [dst], true))
  {
    hide EndsWith, IsZip, Wiped, CopiesEarlier, UniqueDestName, StageUpTo, Distinct;
    NotStaged(o.staged, dst);
    NamesGrow(o.staged, dst);
    hide Names;
    var o' := Outcome(o.folder[dst := content], o.staged + [dst], true);
    forall i | 0 <= i < k && sources[i].Beside? ensures CopiesEarlier(o', i, sources[i].name) {
      CopyKept(o, o', i, sources[i].name);
    }
    if sources[k].Beside? { CopyMade(o, o', sources[k].name); }
  }

  lemma CopyKept(o: Outcome, o': Outcome, i: nat, name: string)
    requires CopiesEarlier(o, i, name) && o.staged <= o'.staged
    requires forall n | n in o.staged :: n in o'.folder && n in o.folder && o'.folder[n] == o.folder[n]
    ensures CopiesEarlier(o', i, name)
  {
    var j :| 0 <= j < i && o.staged[j] == name;
    assert o'.staged[i] == o.staged[i] && o'.staged[j] == name;
  }

  lemma CopyMade(o: Outcome, o': Outcome, name: string)
    requires |o'.staged| == |o.staged| + 1 && o.staged <= o'.staged && name in Names(o.staged)
    requires name in o'.folder && o'.staged[|o.staged|] in o'.folder
        && o'.folder[o'.staged[|o.staged|]] == o'.folder[name]
    ensures CopiesEarlier(o', |o.staged|, name)
  {
    var j :| 0 <= j < |o.staged| && o.staged[j] == name;
    assert o'.staged[j] == name;
  }

  lemma NothingStaged(sources: seq<Source>, folder: Folder)
    ensures StagedInOrder(sources, folder, 0, Outcome(Wiped(folder), [], true))
  {
    NoNames();
  }

  /** A step that went through took a new name and its module's content. */
  lemma StepShape(source: Source, index: nat, o: Outcome)
    requires StageOne(source, index, o).ok
    ensures o.ok && source != Unresolvable && ContentOf(source, o.folder).Some?
    ensures source.Elsewhere? ==> ContentOf(source, o.folder).value == source.content
    ensures source.Beside? ==> && source.name in o.folder && ContentOf(source, o.folder).value == o.folder[source.name]
                               && source.name in Names(o.staged)
                               && (source.pin.Some? ==> o.folder[source.name] == source.pin.value)
    ensures var dst := UniqueDestName(source.name, Names(o.staged), index);
            && dst !in Names(o.staged) && EndsWith(dst, source.name)
            && StageOne(source, index, o)
               == Outcome(o.folder[dst := ContentOf(source, o.folder).value], o.staged + [dst], true)
  {
    hide UniqueDestName, Names, EndsWith;
  }

  lemma {:induction false} StagingKeepsOrder(sources: seq<Source>, folder: Folder, k: nat)
    requires k <= |sources| && StageUpTo(sources, folder, k).ok
    ensures StagedInOrder(sources, folder, k, StageUpTo(sources, folder, k))
  {
    hide UniqueDestName, IsZip, EndsWith, Names, StagedInOrder, StageOne, Wiped;
    if k == 0 {
      NothingStaged(sources, folder);
    } else {
      StageUpToStep(sources, folder, k - 1);
      var before, source := StageUpTo(sources, folder, k - 1), sources[k - 1];
      StepShape(source, k - 1, before);
      StagingKeepsOrder(sources, folder, k - 1);
      UniqueKeepsZip(source.name, Names(before.staged), k - 1);
      OneMore(sources, folder, k - 1, before, UniqueDestName(source.name, Names(before.staged), k - 1),
              ContentOf(source, before.folder).value);
    }
  }

  /** The i-th file has the first free name for its source, position i and the names before it. */
  lemma {:induction false} StagedUnderFirstFree(sources: seq<Source>, folder: Folder, k: nat, i: nat)
    requires i < k <= |sources| && StageUpTo(sources, folder, k).ok
    ensures var staged := StageUpTo(sources, folder, k).staged;
            && |staged| == k && !sources[i].Unresolvable?
            && staged[i] == UniqueDestName(sources[i].name, Names(staged[..i]), i)
    decreases k
  {
    hide UniqueDestName, Names, StagedInOrder, StageOne;
    StageUpToStep(sources, folder, k - 1);
    var before := StageUpTo(sources, folder, k - 1);
    StepShape(sources[k - 1], k - 1, before);
    KeptLength(sources, folder, k - 1);
    var staged := StageUpTo(sources, folder, k).staged;
    if i == k - 1 {
      assert staged[..i] == before.staged;
    } else {
      StagedUnderFirstFree(sources, folder, k - 1, i);
      assert staged[..i] == before.staged[..i];
    }
  }

  lemma KeptLength(sources: seq<Source>, folder: Folder, k: nat)
    requires k <= |sources| && StageUpTo(sources, folder, k).ok
    ensures |StageUpTo(sources, folder, k).staged| == k
  {
    StagingKeepsOrder(sources, folder, k);
  }

  // ---- Staging over what another staging left ---------------------------------------------

  /** What a staging, complete or not, makes of a directory: the staged files, and old ones that are no zips. */
  ghost predicate Follows(folder: Folder, o: Outcome) {
    && (forall n :: n in o.folder <==> n in Names(o.staged) || (n in folder && !IsZip(n)))
    && (forall n | n in folder && !IsZip(n) && n !in Names(o.staged) :: o.folder[n] == folder[n])
  }

  lemma OneFollows(folder: Folder, source: Source, index: nat, o: Outcome)
    requires Follows(folder, o)
    ensures Follows(folder, StageOne(source, index, o))
  {
    hide UniqueDestName, IsZip;
    if StageOne(source, index, o).ok { NamesGrow(o.staged, UniqueDestName(source.name, Names(o.staged), index)); }
  }

  lemma {:induction false} StagingFollows(sources: seq<Source>, folder: Folder, k: nat)
    requires k <= |sources|
    ensures Follows(folder, StageUpTo(sources, folder, k))
  {
    if k == 0 {
      NoNames();
    } else {
      StagingFollows(sources, folder, k - 1);
      StageUpToStep(sources, folder, k - 1);
      hide StageUpTo, StageOne, Follows;
      OneFollows(folder, sources[k - 1], k - 1, StageUpTo(sources, folder, k - 1));
    }
  }

  /** The same success, the same names, and the same contents under them. */
  ghost predicate Alike(a: Outcome, b: Outcome) {
    && a.ok == b.ok && a.staged == b.staged
    && Names(a.staged) <= a.folder.Keys && Names(a.staged) <= b.folder.Keys
    && forall n | n in Names(a.staged) :: a.folder[n] == b.folder[n]
  }

  lemma OneAlike(source: Source, index: nat, a: Outcome, b: Outcome)
    requires Alike(a, b)
    ensures Alike(StageOne(source, index, a), StageOne(source, index, b))
  {
    hide UniqueDestName, Names;
    if a.ok && source != Unresolvable {
      var dst := UniqueDestName(source.name, Names(a.staged), index);
      NamesGrow(a.staged, dst);
    }
  }

  /** Success, names and contents do not depend on what was in the directory. */
  lemma {:induction false} StagedAlike(sources: seq<Source>, a: Folder, b: Folder, k: nat)
    requires k <= |sources|
    ensures Alike(StageUpTo(sources, a, k), StageUpTo(sources, b, k))
  {
    if k == 0 {
      NoNames();
    } else {
      StagedAlike(sources, a, b, k - 1);
      StageUpToStep(sources, a, k - 1);
      StageUpToStep(sources, b, k - 1);
      hide StageUpTo, StageOne, Alike;
      OneAlike(sources[k - 1], k - 1, StageUpTo(sources, a, k - 1), StageUpTo(sources, b, k - 1));
    }
  }

  /** Re-staging unchanged sources changes nothing, whether the staging succeeds or fails part-way. */
  lemma Restage(sources: seq<Source>, folder: Folder)
    ensures StageAll(sources, StageAll(sources, folder).folder) == StageAll(sources, folder)
  {
    hide StageUpTo, IsZip, Names;
    var once := StageAll(sources, folder);
    var twice := StageAll(sources, once.folder);
    StagedAlike(sources, folder, once.folder, |sources|);
    StagingFollows(sources, folder, |sources|);
    StagingFollows(sources, once.folder, |sources|);
    forall n
      ensures n in once.folder <==> n in twice.folder
      ensures n in once.folder ==> once.folder[n] == twice.folder[n]
    {
    }
    assert once.folder == twice.folder;
  }

  /** Staging a list over what another list left gives what staging it alone would exactly when every file staged for
      the other and not for it is a zip, or was already there with that content. Either staging may have failed. */
  lemma UnstagesExactly(latest: seq<Source>, former: seq<Source>, folder: Folder)
    ensures StageAll(latest, StageAll(former, folder).folder).folder == StageAll(latest, folder).folder
      <==> forall n | n in StageAll(former, folder).staged && n !in StageAll(latest, folder).staged ::
             IsZip(n) || (n in folder && n in StageAll(former, folder).folder
                 && folder[n] == StageAll(former, folder).folder[n])
  {
    hide StageUpTo, IsZip;
    var mid := StageAll(former, folder);
    var via, direct := StageAll(latest, mid.folder), StageAll(latest, folder);
    StagedAlike(latest, mid.folder, folder, |latest|);
    StagingFollows(former, folder, |former|);
    StagingFollows(latest, folder, |latest|);
    StagingFollows(latest, mid.folder, |latest|);
    UnstagesCore(via.folder, direct.folder, mid.folder, folder, direct.staged, mid.staged);
  }

  lemma {:induction false} SamePrefix(a: seq<Source>, b: seq<Source>, folder: Folder, k: nat)
    requires k <= |a| && k <= |b| && a[..k] == b[..k]
    ensures StageUpTo(a, folder, k) == StageUpTo(b, folder, k)
  {
    hide StageOne;
    if k == 0 {
    } else {
      assert a[..k - 1] == a[..k][..k - 1] == b[..k][..k - 1] == b[..k - 1];
      assert a[k - 1] == a[..k][k - 1] == b[..k][k - 1] == b[k - 1];
      SamePrefix(a, b, folder, k - 1);
    }
  }

  lemma {:induction false} StagedGrows(sources: seq<Source>, folder: Folder, j: nat, k: nat)
    requires j <= k <= |sources|
    ensures StageUpTo(sources, folder, j).staged <= StageUpTo(sources, folder, k).staged
    decreases k
  {
    hide UniqueDestName;
    if j == k {
    } else {
      StagedGrows(sources, folder, j, k - 1);
      StageUpToStep(sources, folder, k - 1);
    }
  }

  /** A retry after a staging that failed at its k-th module, with the list corrected from there on, gives exactly what
      staging the corrected list at once would have. */
  lemma RetryAfterFailure(failed: seq<Source>, fixed: seq<Source>, folder: Folder, k: nat)
    requires k < |failed| && k <= |fixed| && failed[..k] == fixed[..k]
    requires !StageUpTo(failed, folder, k + 1).ok
    ensures StageAll(fixed, StageAll(failed, folder).folder) == StageAll(fixed, folder)
  {
    FailureSticks(failed, folder, k + 1);
    StageUpToStep(failed, folder, k);
    SamePrefix(failed, fixed, folder, k);
    StagedGrows(fixed, folder, k, |fixed|);
    hide StageUpTo, IsZip, UniqueDestName;
    var mid := StageAll(failed, folder);
    assert mid.staged == StageUpTo(fixed, folder, k).staged;
    forall n | n in mid.staged ensures n in StageAll(fixed, folder).staged {}
    UnstagesExactly(fixed, failed, folder);
    StagedAlike(fixed, mid.folder, folder, |fixed|);
  }

  lemma UnstagesCore(via: Folder, direct: Folder, mid: Folder, folder: Folder, now: seq<string>, was: seq<string>)
    requires forall n :: n in via <==> n in now || (n in mid && !IsZip(n))
    requires forall n :: n in direct <==> n in now || (n in folder && !IsZip(n))
    requires forall n :: n in mid <==> n in was || (n in folder && !IsZip(n))
    requires forall n | n in now :: via[n] == direct[n]
    requires forall n | n !in now && n in mid && !IsZip(n) :: via[n] == mid[n]
    requires forall n | n !in now && n in folder && !IsZip(n) :: direct[n] == folder[n]
    requires forall n | n !in was && n in folder && !IsZip(n) :: mid[n] == folder[n]
    ensures via == direct <==> forall n | n in was && n !in now :: IsZip(n) || (n in folder && folder[n] == mid[n])
  {
    if forall n | n in was && n !in now :: IsZip(n) || (n in folder && folder[n] == mid[n]) {
      forall n
        ensures n in via <==> n in direct
        ensures n in via ==> via[n] == direct[n]
      {
      }
      assert via == direct;
    }
    if via == direct {
      forall n | n in was && n !in now ensures IsZip(n) || (n in folder && folder[n] == mid[n]) {
        assert n in via || IsZip(n);
      }
    }
  }

  // ---- Modules kept in the directory itself -----------------------------------------------

  function NameOf(source: Source): string { if source.Unresolvable? then "" else source.name }

  /** The files a staging would leave, from the list alone. */
  function PlannedFiles(sources: seq<Source>, k: nat): Folder
    requires k <= |sources|
  {
    if k == 0 then map[]
    else
      var prev, source := PlannedFiles(sources, k - 1), sources[k - 1];
      var content :=
        match source
        case Elsewhere(_, content) => content
        case Beside(name, _) => if name in prev then prev[name] else ""
        case Unresolvable => "";
      prev[UniqueDestName(NameOf(source), prev.Keys, k - 1) := content]
  }

  /** The staged files are the planned ones. */
  ghost predicate Planned(o: Outcome, plan: Folder) {
    && Names(o.staged) == plan.Keys && plan.Keys <= o.folder.Keys
    && forall n | n in plan :: o.folder[n] == plan[n]
  }

  lemma {:induction false} StagedAsPlanned(sources: seq<Source>, folder: Folder, k: nat)
    requires k <= |sources| && StageUpTo(sources, folder, k).ok
    ensures Planned(StageUpTo(sources, folder, k), PlannedFiles(sources, k))
  {
    hide UniqueDestName, Names, Wiped, EndsWith, IsZip;
    if k == 0 {
      NoNames();
    } else {
      StageUpToStep(sources, folder, k - 1);
      StagedAsPlanned(sources, folder, k - 1);
      var before, source := StageUpTo(sources, folder, k - 1), sources[k - 1];
      StepShape(source, k - 1, before);
      NamesGrow(before.staged, UniqueDestName(source.name, Names(before.staged), k - 1));
    }
  }

  /** A module that can be resolved; and, if it lies in the directory, one whose name an earlier module is staged under,
      with the content that is pinned, if any is. */
  predicate Stageable(sources: seq<Source>, k: nat)
    requires k < |sources|
  {
    match sources[k]
    case Elsewhere(_, _) => true
    case Beside(name, pin) =>
      name in PlannedFiles(sources, k) && (pin.None? || pin.value == PlannedFiles(sources, k)[name])
    case Unresolvable => false
  }

  lemma OneSucceedsExactly(source: Source, index: nat, o: Outcome, plan: Folder)
    requires o.ok && Planned(o, plan)
    ensures StageOne(source, index, o).ok
      <==> && source != Unresolvable
           && (source.Beside? ==> source.name in plan && (source.pin.None? || source.pin.value == plan[source.name]))
  {
    hide UniqueDestName, Names, EndsWith;
  }

  lemma StepSucceedsExactly(sources: seq<Source>, folder: Folder, k: nat)
    requires k < |sources| && StageUpTo(sources, folder, k).ok
    ensures StageUpTo(sources, folder, k + 1).ok <==> Stageable(sources, k)
  {
    hide UniqueDestName, StageUpTo, StageOne, PlannedFiles, Planned;
    StagedAsPlanned(sources, folder, k);
    StageUpToStep(sources, folder, k);
    OneSucceedsExactly(sources[k], k, StageUpTo(sources, folder, k), PlannedFiles(sources, k));
  }

  lemma PrefixExactly(sources: seq<Source>, folder: Folder, k: nat)
    requires k < |sources|
    ensures StageUpTo(sources, folder, k + 1).ok <==> StageUpTo(sources, folder, k).ok && Stageable(sources, k)
  {
    hide StageUpTo, Stageable, UniqueDestName, PlannedFiles, Names;
    if StageUpTo(sources, folder, k).ok {
      StepSucceedsExactly(sources, folder, k);
    } else {
      StageUpToStep(sources, folder, k);
    }
  }

  lemma NothingFails(sources: seq<Source>, folder: Folder)
    ensures StageUpTo(sources, folder, 0).ok
  {
  }

  lemma {:induction false} SucceedsUpTo(sources: seq<Source>, folder: Folder, k: nat)
    requires k <= |sources|
    ensures StageUpTo(sources, folder, k).ok <==> forall j | 0 <= j < k :: Stageable(sources, j)
  {
    hide StageUpTo, StageOne, Stageable, UniqueDestName, PlannedFiles, Names;
    if k == 0 {
      NothingFails(sources, folder);
    } else {
      SucceedsUpTo(sources, folder, k - 1);
      PrefixExactly(sources, folder, k - 1);
    }
  }

  /** Staging succeeds, whatever the directory holds, exactly when every module can be resolved and every one that lies
      in the directory has its name, and its pinned content, staged by an earlier module. */
  lemma StagingSucceedsExactly(sources: seq<Source>, folder: Folder)
    ensures StageAll(sources, folder).ok <==> forall k | 0 <= k < |sources| :: Stageable(sources, k)
  {
    SucceedsUpTo(sources, folder, |sources|);
  }

  /** Every file staged holds the content of a module from elsewhere: what lay in the directory is never staged. */
  lemma {:induction false} ContentFromElsewhere(sources: seq<Source>, folder: Folder, i: nat)
    requires StageAll(sources, folder).ok && i < |sources|
    ensures |StageAll(sources, folder).staged| == |sources|
        && StageAll(sources, folder).staged[i] in StageAll(sources, folder).folder
    ensures exists j :: && 0 <= j <= i && sources[j].Elsewhere?
                        && StageAll(sources, folder).folder[StageAll(sources, folder).staged[i]] == sources[j].content
    decreases i
  {
    StagingKeepsOrder(sources, folder, |sources|);
    hide EndsWith, IsZip, Wiped, StageUpTo;
    var o := StageAll(sources, folder);
    assert o.staged[i] in Names(o.staged);
    if !sources[i].Beside? {
    } else {
      var j :| 0 <= j < i && o.staged[j] == sources[i].name && o.folder[o.staged[i]] == o.folder[o.staged[j]];
      ContentFromElsewhere(sources, folder, j);
    }
  }

  /** No zip that was there survives, on success or error, except under a name that was staged anew. */
  lemma {:induction false} ZipsAreReplaced(sources: seq<Source>, folder: Folder, k: nat, n: string)
    requires k <= |sources| && IsZip(n) && n in StageUpTo(sources, folder, k).folder
    ensures n in StageUpTo(sources, folder, k).staged
  {
    hide UniqueDestName, Names;
    if k == 0 {
    } else {
      StageUpToStep(sources, folder, k - 1);
      if n in StageUpTo(sources, folder, k - 1).folder { ZipsAreReplaced(sources, folder, k - 1, n); }
    }
  }

  lemma FirstPlanned(sources: seq<Source>)
    requires sources != [] && sources[0].Elsewhere?
    ensures PlannedFiles(sources, 1) == map[sources[0].name := sources[0].content]
  {
    hide UniqueDestName;
    assert PlannedFiles(sources, 0) == map[];
  }

  /** A file in the directory named like an earlier module is silently replaced by it, both files staged being that
      module, unless another content is pinned: then the staging fails. */
  lemma SilentReplacement(sources: seq<Source>, folder: Folder)
    requires |sources| == 2 && sources[0].Elsewhere? && sources[1].Beside? && sources[1].name == sources[0].name
    ensures StageAll(sources, folder).ok <==> sources[1].pin.None? || sources[1].pin.value == sources[0].content
    ensures var o := StageAll(sources, folder);
            o.ok ==> && |o.staged| == 2 && o.staged[0] != o.staged[1]
                     && forall n | n in o.staged :: n in o.folder && o.folder[n] == sources[0].content
  {
    hide UniqueDestName, StageUpTo, PlannedFiles, EndsWith, IsZip, Wiped, Names;
    FirstPlanned(sources);
    assert Stageable(sources, 0);
    StagingSucceedsExactly(sources, folder);
    if StageAll(sources, folder).ok {
      StagingKeepsOrder(sources, folder, 2);
      forall i: nat | i < 2
        ensures StageAll(sources, folder).staged[i] in StageAll(sources, folder).folder
        ensures StageAll(sources, folder).folder[StageAll(sources, folder).staged[i]] == sources[0].content
      {
        ContentFromElsewhere(sources, folder, i);
      }
    }
  }

  /** A staged file that is no zip lingers after its module left the list. */
  lemma NonZipLingers(name: string, x: Content)
    requires !IsZip(name)
    ensures StageAll([], StageAll([Elsewhere(name, x)], map[]).folder).folder != StageAll([], map[]).folder
  {
    var former, empty: Folder := [Elsewhere(name, x)], map[];
    assert StageAll([], empty).staged == [];
    hide UniqueDestName, IsZip, StageUpTo, EndsWith;
    StagingSucceedsExactly(former, empty);
    StagingKeepsOrder(former, empty, 1);
    var n := StageAll(former, empty).staged[0];
    assert n in StageAll(former, empty).staged && !IsZip(n) && n !in empty;
    UnstagesExactly([], former, empty);
  }
}
