/** The reconcile loop (pkg/controllers/autoprovision/auto_provision_controller.go) against an API
    object store whose calls may fail, before or after taking effect. */
module Reconciler {
  import opened Core
  import opened ScaledObjects

  /** A controller reference. */
  datatype Owner = Owner(ref: Reference, uid: string, blockDeletion: bool)

  datatype ScaledObject = ScaledObject(name: string, controller: Option<Owner>, annotations: map<string, string>,
                                       created: int, deleting: bool, spec: Spec)

  /** The ScaledObjects of one namespace, by name. */
  type Store = map<string, ScaledObject>

  predicate Managed(so: ScaledObject, uid: string) {
    so.controller.Some? && so.controller.value.uid == uid && so.controller.value.ref.kind == INFERENCE_SET
  }

  function ManagedNames(s: Store, uid: string): set<string> {
    set name | name in s && Managed(s[name], uid)
  }

  /** Not controlled by the InferenceSet with this UID: no controller at all, another UID, or another
      kind of controller. */
  ghost predicate Foreign(so: ScaledObject, uid: string) {
    so.controller.None? || so.controller.value.uid != uid || so.controller.value.ref.kind != "InferenceSet"
  }

  /** Every object of others is left as it was. */
  ghost predicate Untouched(before: Store, after: Store, uid: string) {
    forall name | name in before && Foreign(before[name], uid) :: name in after && after[name] == before[name]
  }

  /** The InferenceSet is not left without an object if it had one. */
  ghost predicate KeepsOne(before: Store, after: Store, uid: string) {
    (exists name | name in before :: !Foreign(before[name], uid))
    ==> exists name | name in after :: !Foreign(after[name], uid)
  }

  predicate Mismatch(s: Store, uid: string, desired: Spec) {
    exists name | name in s :: Managed(s[name], uid) && SpecChanged(s[name].spec, desired)
  }

  /** What is left to do: create the object, or delete the surplus and fix the fields. */
  function Measure(s: Store, uid: string, desired: Spec): nat {
    var n := |ManagedNames(s, uid)|;
    if n == 0 then 1 else (n - 1) + if Mismatch(s, uid, desired) then 1 else 0
  }

  /** Exactly one managed object, carrying the desired managed fields. */
  predicate Converged(s: Store, uid: string, desired: Spec) {
    |ManagedNames(s, uid)| == 1 && !Mismatch(s, uid, desired)
  }

  predicate WellKeyed(s: Store) {
    forall name | name in s :: s[name].name == name
  }

  /** `after` comes from `before` by `writes` effective calls that only ever help: objects of
      others are untouched, the last managed object is never lost, and each write lowers what is
      left to do. */
  ghost predicate Progress(before: Store, after: Store, uid: string, desired: Spec, writes: nat) {
    && WellKeyed(after)
    && (forall name | name in before && !Managed(before[name], uid) ::
          name in after && after[name] == before[name])
    && (forall name | name in after && !Managed(after[name], uid) :: name in before && before[name] == after[name])
    && (ManagedNames(before, uid) != {} ==> ManagedNames(after, uid) != {})
    && Measure(after, uid, desired) + writes <= Measure(before, uid, desired)
    && (writes == 0 ==> after == before)
  }

  lemma ProgressTrans(a: Store, b: Store, c: Store, uid: string, desired: Spec, m: nat, n: nat)
    requires Progress(a, b, uid, desired, m) && Progress(b, c, uid, desired, n)
    ensures Progress(a, c, uid, desired, m + n)
  {
    forall name | name in a && !Managed(a[name], uid) ensures name in c && c[name] == a[name] {
      assert b[name] == a[name];
    }
    forall name | name in c && !Managed(c[name], uid) ensures name in a && a[name] == c[name] {
      assert b[name] == c[name];
    }
  }

  lemma ProgressRefl(s: Store, uid: string, desired: Spec)
    requires WellKeyed(s)
    ensures Progress(s, s, uid, desired, 0)
  {
  }

  lemma ProgressLeavesOthers(before: Store, after: Store, uid: string, desired: Spec, writes: nat)
    requires Progress(before, after, uid, desired, writes)
    ensures Untouched(before, after, uid) && KeepsOne(before, after, uid)
  {
    if name :| name in before && !Foreign(before[name], uid) {
      assert name in ManagedNames(before, uid);
      var kept :| kept in ManagedNames(after, uid);
      assert !Foreign(after[kept], uid);
    }
  }

  /** Convergence, over the fields: one object is controlled by this InferenceSet, no other one is, and it
      counts as up to date. */
  lemma ConvergedExactlyWhen(s: Store, uid: string, desired: Spec)
    ensures Converged(s, uid, desired) <==>
              exists name | name in s ::
                && !Foreign(s[name], uid) && !SpecChanged(s[name].spec, desired)
                && forall other | other in s && !Foreign(s[other], uid) :: other == name
  {
    if Converged(s, uid, desired) {
      var name :| name in ManagedNames(s, uid);
      OnlyMember(ManagedNames(s, uid), name);
      forall other | other in s && !Foreign(s[other], uid) ensures other == name {
        assert other in ManagedNames(s, uid);
      }
    }
    if name :| name in s && !Foreign(s[name], uid) && !SpecChanged(s[name].spec, desired)
               && forall other | other in s && !Foreign(s[other], uid) :: other == name {
      assert ManagedNames(s, uid) == {name};
    }
  }

  lemma OnlyMember(names: set<string>, name: string)
    requires |names| == 1 && name in names
    ensures names == {name}
  {
    assert |names - {name}| == 0;
  }

  lemma MeasureZero(s: Store, uid: string, desired: Spec)
    ensures Measure(s, uid, desired) == 0 <==> Converged(s, uid, desired)
  {
  }

  // ------------------------------------------------------- the three writes

  lemma DeleteProgress(s: Store, name: string, uid: string, desired: Spec)
    requires WellKeyed(s) && name in s && Managed(s[name], uid)
    requires |ManagedNames(s, uid)| > 1
    ensures Progress(s, s - {name}, uid, desired, 1)
  {
    var s' := s - {name};
    assert ManagedNames(s', uid) == ManagedNames(s, uid) - {name};
    assert name in ManagedNames(s, uid);
    assert |ManagedNames(s', uid)| == |ManagedNames(s, uid)| - 1;
    assert Mismatch(s', uid, desired) ==> Mismatch(s, uid, desired);
  }

  lemma CreateProgress(s: Store, so: ScaledObject, uid: string, desired: Spec)
    requires WellKeyed(s) && so.name !in s && Managed(so, uid) && ManagedNames(s, uid) == {}
    requires !SpecChanged(so.spec, desired)
    ensures Progress(s, s[so.name := so], uid, desired, 1)
    ensures Converged(s[so.name := so], uid, desired)
  {
    var s' := s[so.name := so];
    forall name | name in s ensures !Managed(s[name], uid) {
      assert name !in ManagedNames(s, uid);
    }
    assert ManagedNames(s', uid) == {so.name};
  }

  lemma UpdateProgress(s: Store, name: string, uid: string, desired: Spec)
    requires WellKeyed(s) && ManagedNames(s, uid) == {name} && SpecChanged(s[name].spec, desired)
    ensures name in s
    ensures var s' := s[name := s[name].(spec := Reconciled(s[name].spec, desired))];
            Progress(s, s', uid, desired, 1) && Converged(s', uid, desired)
  {
    assert name in ManagedNames(s, uid);
    var s' := s[name := s[name].(spec := Reconciled(s[name].spec, desired))];
    ReconciledIsFixpoint(s[name].spec, desired);
    forall n | n in s && Managed(s[n], uid) ensures n == name {
      assert n in ManagedNames(s, uid);
    }
    assert ManagedNames(s', uid) == {name};
    assert Mismatch(s, uid, desired);
  }

  // --------------------------------------------------------------- the API

  datatype ApiError = Ok | NotFound | Failed

  /** The API server. A call that reports an error may still have taken effect; a healthy server
      only fails for a reason. Its health changes from the outside. */
  class ApiServer {
    var healthy: bool
    var objects: Store
    ghost var writes: nat  // effective writes so far

    constructor (objects: Store, healthy: bool)
      ensures this.objects == objects && this.healthy == healthy && writes == 0
    {
      this.objects, this.healthy, writes := objects, healthy, 0;
    }

    /** Every object of the namespace, in any order, or None. */
    method List() returns (items: Option<seq<ScaledObject>>)
      ensures healthy ==> items.Some?
      ensures items.Some? ==>
                && (forall i | 0 <= i < |items.value| ::
                      items.value[i].name in objects && objects[items.value[i].name] == items.value[i])
                && (forall i, j | 0 <= i < j < |items.value| :: items.value[i].name != items.value[j].name)
                && (WellKeyed(objects) ==> forall name | name in objects ::
                      exists i | 0 <= i < |items.value| :: items.value[i].name == name)
    {
      var fails: bool := *;
      if fails && !healthy {
        return None;
      }
      var result: seq<ScaledObject> := [];
      var pending := objects.Keys;
      while pending != {}
        invariant pending <= objects.Keys
        invariant forall i | 0 <= i < |result| ::
                    && result[i].name in objects && result[i].name !in pending
                    && objects[result[i].name] == result[i]
        invariant forall i, j | 0 <= i < j < |result| :: result[i].name != result[j].name
        invariant WellKeyed(objects) ==> forall name | name in objects && name !in pending ::
                    exists i | 0 <= i < |result| :: result[i].name == name
        decreases pending
      {
        var name :| name in pending;
        pending := pending - {name};
        ghost var before := result;
        if objects[name].name == name {
          result := result + [objects[name]];
          assert result[|before|].name == name;
        }
        forall n | WellKeyed(objects) && n in objects && n !in pending
          ensures exists i | 0 <= i < |result| :: result[i].name == n
        {
          if n != name {
            var i :| 0 <= i < |before| && before[i].name == n;
            assert result[i].name == n;
          }
        }
      }
      return Some(result);
    }

    method Create(so: ScaledObject) returns (err: ApiError)
      modifies this`objects, this`writes
      ensures (objects == old(objects) && writes == old(writes))
              || (so.name !in old(objects) && objects == old(objects)[so.name := so] && writes == old(writes) + 1)
      ensures err == Ok ==> writes == old(writes) + 1
      ensures healthy && so.name !in old(objects) ==> err == Ok
    {
      if so.name in objects {
        return Failed;
      }
      var applied: bool, reported: bool := *, *;
      if applied || healthy {
        objects := objects[so.name := so];
        writes := writes + 1;
        return if reported || healthy then Ok else Failed;
      }
      return Failed;
    }

    method Update(so: ScaledObject) returns (err: ApiError)
      modifies this`objects, this`writes
      ensures (objects == old(objects) && writes == old(writes))
              || (so.name in old(objects) && objects == old(objects)[so.name := so] && writes == old(writes) + 1)
      ensures err == Ok ==> writes == old(writes) + 1
      ensures healthy && so.name in old(objects) ==> err == Ok
    {
      if so.name !in objects {
        return NotFound;
      }
      var applied: bool, reported: bool := *, *;
      if applied || healthy {
        objects := objects[so.name := so];
        writes := writes + 1;
        return if reported || healthy then Ok else Failed;
      }
      return Failed;
    }

    method Delete(name: string) returns (err: ApiError)
      modifies this`objects, this`writes
      ensures (objects == old(objects) && writes == old(writes))
              || (name in old(objects) && objects == old(objects) - {name} && writes == old(writes) + 1)
      ensures err == Ok ==> writes == old(writes) + 1
      ensures err == NotFound ==> name !in objects && objects == old(objects)
      ensures healthy && name in old(objects) ==> err == Ok
      ensures healthy ==> err != Failed
    {
      if name !in objects {
        var lost: bool := *;
        return if lost && !healthy then Failed else NotFound;
      }
      var applied: bool, reported: bool := *, *;
      if applied || healthy {
        objects := objects - {name};
        writes := writes + 1;
        return if reported || healthy then Ok else Failed;
      }
      return Failed;
    }
  }

  // ------------------------------------------------------------ the controller

  /** What is listed once positions 1 to i - 1 are gone. */
  ghost function Left(sorted: seq<ScaledObject>, i: nat): seq<ScaledObject>
    requires 1 <= i <= |sorted|
  {
    [sorted[0]] + sorted[i..]
  }

  lemma LeftEnds(sorted: seq<ScaledObject>)
    requires sorted != []
    ensures Left(sorted, 1) == sorted && Left(sorted, |sorted|) == [sorted[0]]
  {
  }

  lemma LeftNext(sorted: seq<ScaledObject>, i: nat)
    requires 1 <= i < |sorted|
    ensures var left := Left(sorted, i);
            left[1] == sorted[i] && [left[0]] + left[2..] == Left(sorted, i + 1)
  {
  }

  /** `items` are exactly the managed objects of the store, each once. */
  ghost predicate ListsManaged(items: seq<ScaledObject>, s: Store, uid: string) {
    && (forall i | 0 <= i < |items| ::
          items[i].name in s && s[items[i].name] == items[i] && Managed(items[i], uid))
    && (forall i, j | 0 <= i < j < |items| :: items[i].name != items[j].name)
    && (forall name | name in ManagedNames(s, uid) :: exists i | 0 <= i < |items| :: items[i].name == name)
  }

  function OnlyManaged(items: seq<ScaledObject>, uid: string): seq<ScaledObject> {
    if items == [] then []
    else
      var last := items[|items| - 1];
      OnlyManaged(items[..|items| - 1], uid) + if Managed(last, uid) then [last] else []
  }

  lemma {:induction false} OnlyManagedMembers(items: seq<ScaledObject>, uid: string)
    ensures forall so :: so in OnlyManaged(items, uid) <==> so in items && Managed(so, uid)
  {
    if items != [] {
      var n := |items| - 1;
      OnlyManagedMembers(items[..n], uid);
      assert items == items[..n] + [items[n]];
    }
  }

  ghost predicate DistinctlyNamed(items: seq<ScaledObject>) {
    forall i, j | 0 <= i < j < |items| :: items[i].name != items[j].name
  }

  lemma DistinctSnoc(items: seq<ScaledObject>, so: ScaledObject)
    requires DistinctlyNamed(items) && forall x | x in items :: x.name != so.name
    ensures DistinctlyNamed(items + [so])
  {
  }

  lemma {:induction false} OnlyManagedDistinct(items: seq<ScaledObject>, uid: string)
    requires DistinctlyNamed(items)
    ensures DistinctlyNamed(OnlyManaged(items, uid))
  {
    if items != [] {
      var n := |items| - 1;
      OnlyManagedDistinct(items[..n], uid);
      OnlyManagedMembers(items[..n], uid);
      if Managed(items[n], uid) {
        DistinctSnoc(OnlyManaged(items[..n], uid), items[n]);
      }
    }
  }

  lemma OnlyManagedLists(items: seq<ScaledObject>, s: Store, uid: string)
    requires forall i | 0 <= i < |items| :: items[i].name in s && s[items[i].name] == items[i]
    requires forall i, j | 0 <= i < j < |items| :: items[i].name != items[j].name
    requires forall name | name in s :: exists i | 0 <= i < |items| :: items[i].name == name
    ensures ListsManaged(OnlyManaged(items, uid), s, uid)
  {
    var kept := OnlyManaged(items, uid);
    OnlyManagedMembers(items, uid);
    OnlyManagedDistinct(items, uid);
    assert forall k | 0 <= k < |kept| :: kept[k] in items;
    forall name | name in ManagedNames(s, uid) ensures exists k | 0 <= k < |kept| :: kept[k].name == name {
      var i :| 0 <= i < |items| && items[i].name == name;
      assert items[i] in kept;
      var k :| 0 <= k < |kept| && kept[k] == items[i];
    }
  }

  lemma ListedExactly(items: seq<ScaledObject>, s: Store, uid: string)
    requires ListsManaged(items, s, uid)
    ensures forall so :: so in items <==>
              && so.name in s && s[so.name] == so
              && so.controller.Some? && so.controller.value.uid == uid
              && so.controller.value.ref.kind == "InferenceSet"
  {
    forall so: ScaledObject | so.name in s && s[so.name] == so && Managed(so, uid) ensures so in items {
      assert so.name in ManagedNames(s, uid);
      var i :| 0 <= i < |items| && items[i].name == so.name;
    }
  }

  ghost function NamesOf(items: seq<ScaledObject>): set<string> {
    set i | 0 <= i < |items| :: items[i].name
  }

  lemma {:induction false} NamesSize(items: seq<ScaledObject>)
    requires forall i, j | 0 <= i < j < |items| :: items[i].name != items[j].name
    ensures |NamesOf(items)| == |items|
  {
    if items != [] {
      var n := |items| - 1;
      assert forall i | 0 <= i < n :: items[..n][i] == items[i];
      NamesSize(items[..n]);
      assert NamesOf(items) == NamesOf(items[..n]) + {items[n].name};
    }
  }

  lemma ListedNames(items: seq<ScaledObject>, s: Store, uid: string)
    requires ListsManaged(items, s, uid)
    ensures NamesOf(items) == ManagedNames(s, uid) && |ManagedNames(s, uid)| == |items|
  {
    NamesSize(items);
    forall name | name in ManagedNames(s, uid) ensures name in NamesOf(items) {
      var i :| 0 <= i < |items| && items[i].name == name;
    }
  }

  // Oldest first, stable.
  function InsertByAge(x: ScaledObject, sorted: seq<ScaledObject>): seq<ScaledObject> {
    if sorted == [] || x.created <= sorted[0].created then [x] + sorted
    else [sorted[0]] + InsertByAge(x, sorted[1..])
  }

  function SortByAge(items: seq<ScaledObject>): seq<ScaledObject> {
    if items == [] then [] else InsertByAge(items[0], SortByAge(items[1..]))
  }

  lemma {:induction false} InsertKeeps(x: ScaledObject, sorted: seq<ScaledObject>)
    ensures multiset(InsertByAge(x, sorted)) == multiset{x} + multiset(sorted)
    ensures |InsertByAge(x, sorted)| == |sorted| + 1
    ensures InsertByAge(x, sorted)[0].created <= x.created
    ensures sorted != [] ==> InsertByAge(x, sorted)[0].created <= sorted[0].created
  {
    if sorted != [] && sorted[0].created < x.created {
      assert sorted == [sorted[0]] + sorted[1..];
      InsertKeeps(x, sorted[1..]);
    }
  }

  /** Sorting permutes the list. */
  lemma {:induction false} SortKeeps(items: seq<ScaledObject>)
    ensures multiset(SortByAge(items)) == multiset(items) && |SortByAge(items)| == |items|
  {
    if items != [] {
      assert items == [items[0]] + items[1..];
      SortKeeps(items[1..]);
      InsertKeeps(items[0], SortByAge(items[1..]));
    }
  }

  /** The first listed among the oldest objects. */
  ghost predicate FirstOldest(items: seq<ScaledObject>, i: nat)
    requires i < |items|
  {
    && (forall j | 0 <= j < |items| :: items[i].created <= items[j].created)
    && (forall j | 0 <= j < i :: items[i].created < items[j].created)
  }

  /** The sort is stable and oldest first: what it puts in front is the first of the oldest. */
  lemma {:induction false} SortPutsOldestFirst(items: seq<ScaledObject>, i: nat)
    requires i < |items| && FirstOldest(items, i)
    ensures SortByAge(items) != [] && SortByAge(items)[0] == items[i]
  {
    var rest := items[1..];
    SortKeeps(items);
    if i > 0 {
      assert forall j | 0 <= j < |rest| :: rest[j] == items[j + 1];
      SortPutsOldestFirst(rest, i - 1);
    } else if rest != [] {
      SortKeeps(rest);
      assert SortByAge(rest)[0] in multiset(rest);
      assert exists j | 0 <= j < |rest| :: rest[j] == SortByAge(rest)[0];
      assert forall j | 0 <= j < |rest| :: rest[j] == items[j + 1];
    }
  }

  /** The object a sync keeps is still there, with only managed fields of its spec changed. */
  ghost predicate Kept(so: ScaledObject, s: Store) {
    && so.name in s && s[so.name].(spec := so.spec) == so
    && s[so.name].spec.target == so.spec.target && s[so.name].spec.rest == so.spec.rest
  }

  lemma PermutationLists(a: seq<ScaledObject>, b: seq<ScaledObject>, s: Store, uid: string)
    requires ListsManaged(a, s, uid) && multiset(a) == multiset(b)
    ensures ListsManaged(b, s, uid)
  {
    forall i | 0 <= i < |b|
      ensures b[i].name in s && s[b[i].name] == b[i] && Managed(b[i], uid)
    {
      assert b[i] in multiset(a);
    }
    forall name | name in ManagedNames(s, uid) ensures exists i | 0 <= i < |b| :: b[i].name == name {
      var i :| 0 <= i < |a| && a[i].name == name;
      assert a[i] in multiset(b);
      var j :| 0 <= j < |b| && b[j] == a[i];
    }
    forall i, j | 0 <= i < j < |b| ensures b[i].name != b[j].name {
      OncePerName(a, b[i]);
      TwiceInMultiset(b, i, j);
    }
  }

  lemma {:induction false} OncePerName(a: seq<ScaledObject>, x: ScaledObject)
    requires forall i, j | 0 <= i < j < |a| :: a[i].name != a[j].name
    ensures multiset(a)[x] <= 1
  {
    if a != [] {
      var n := |a| - 1;
      assert a == a[..n] + [a[n]];
      OncePerName(a[..n], x);
    }
  }

  lemma TwiceInMultiset(b: seq<ScaledObject>, i: nat, j: nat)
    requires i < j < |b|
    ensures b[i] == b[j] ==> multiset(b)[b[i]] >= 2
  {
    assert b == b[..j] + [b[j]] + b[j + 1..];
    assert b[i] in multiset(b[..j]) by { assert b[..j][i] == b[i]; }
  }

  class Controller {
    const api: ApiServer
    const uid: string

    constructor (api: ApiServer, uid: string)
      ensures this.api == api && this.uid == uid
    {
      this.api, this.uid := api, uid;
    }

    method ListManagedScaledObjects() returns (managed: Option<seq<ScaledObject>>)
      requires WellKeyed(api.objects)
      ensures api.healthy ==> managed.Some?
      ensures managed.Some? ==> ListsManaged(managed.value, api.objects, uid)
      ensures managed.Some? ==>
                forall so :: so in managed.value <==>
                  && so.name in api.objects && api.objects[so.name] == so
                  && so.controller.Some? && so.controller.value.uid == uid
                  && so.controller.value.ref.kind == "InferenceSet"
    {
      var list := api.List();
      if list.None? {
        return None;
      }
      var items := list.value;
      var kept: seq<ScaledObject> := [];
      for i := 0 to |items|
        invariant kept == OnlyManaged(items[..i], uid)
      {
        assert items[..i + 1][..i] == items[..i];
        if Managed(items[i], uid) {
          kept := kept + [items[i]];
        }
      }
      assert items[..|items|] == items;
      OnlyManagedLists(items, api.objects, uid);
      ListedExactly(kept, api.objects, uid);
      return Some(kept);
    }

    /** Takes each managed field that differs from the desired spec, and writes only then. */
    method ReconcileTo(existing: ScaledObject, desired: Spec) returns (ok: bool)
      requires WellKeyed(api.objects) && ManagedNames(api.objects, uid) == {existing.name}
      requires existing.name in api.objects && api.objects[existing.name] == existing
      modifies api`objects, api`writes
      ensures api.writes >= old(api.writes)
      ensures Progress(old(api.objects), api.objects, uid, desired, api.writes - old(api.writes))
      ensures ok ==> Converged(api.objects, uid, desired)
      ensures !SpecChanged(existing.spec, desired) ==> ok && api.writes == old(api.writes)
      ensures SpecChanged(existing.spec, desired) && ok ==> api.writes == old(api.writes) + 1
      ensures api.healthy ==> ok
      ensures Kept(existing, api.objects)
    {
      var spec, updated := TakeManagedFields(existing.spec, desired);
      ProgressRefl(api.objects, uid, desired);
      if !updated {
        MatchedSingleton(api.objects, existing.name, uid, desired);
        return true;
      }
      UpdateProgress(api.objects, existing.name, uid, desired);
      var err := api.Update(existing.(spec := spec));
      return err == Ok;
    }

    method TakeManagedFields(existing: Spec, desired: Spec) returns (spec: Spec, updated: bool)
      ensures updated == SpecChanged(existing, desired) && spec == Reconciled(existing, desired)
    {
      spec, updated := existing, false;
      if spec.min != desired.min { spec := spec.(min := desired.min); updated := true; }
      if spec.max != desired.max { spec := spec.(max := desired.max); updated := true; }
      if spec.polling != desired.polling { spec := spec.(polling := desired.polling); updated := true; }
      if spec.cooldown != desired.cooldown { spec := spec.(cooldown := desired.cooldown); updated := true; }
      if spec.initialCooldown != desired.initialCooldown {
        spec := spec.(initialCooldown := desired.initialCooldown);
        updated := true;
      }
      if spec.triggers != desired.triggers { spec := spec.(triggers := desired.triggers); updated := true; }
      if AdvancedChanged(spec.advanced, desired.advanced) {
        spec := spec.(advanced := desired.advanced);
        updated := true;
      }
    }

    /** Creates, deduplicates (keeping an oldest) or updates. Whatever fails part-way, every
        effective write is progress; success means convergence; and a converged store is not
        written to. */
    method SyncDesired(existing: seq<ScaledObject>, desired: ScaledObject) returns (ok: bool)
      requires WellKeyed(api.objects) && ListsManaged(existing, api.objects, uid)
      requires Managed(desired, uid)
      modifies api`objects, api`writes
      ensures api.writes >= old(api.writes)
      ensures Progress(old(api.objects), api.objects, uid, desired.spec, api.writes - old(api.writes))
      ensures ok ==> Converged(api.objects, uid, desired.spec)
      ensures Converged(old(api.objects), uid, desired.spec) ==> ok && api.writes == old(api.writes)
      ensures existing != [] ==> SortByAge(existing) != [] && Kept(SortByAge(existing)[0], api.objects)
      ensures api.healthy && (existing != [] || desired.name !in old(api.objects)) ==> ok
      ensures existing == [] && desired.name in old(api.objects) ==> !ok
      ensures Untouched(old(api.objects), api.objects, uid) && KeepsOne(old(api.objects), api.objects, uid)
    {
      ok := SyncListed(existing, desired);
      ProgressLeavesOthers(old(api.objects), api.objects, uid, desired.spec, api.writes - old(api.writes));
    }

    method SyncListed(existing: seq<ScaledObject>, desired: ScaledObject) returns (ok: bool)
      requires WellKeyed(api.objects) && ListsManaged(existing, api.objects, uid)
      requires Managed(desired, uid)
      modifies api`objects, api`writes
      ensures api.writes >= old(api.writes)
      ensures Progress(old(api.objects), api.objects, uid, desired.spec, api.writes - old(api.writes))
      ensures ok ==> Converged(api.objects, uid, desired.spec)
      ensures Converged(old(api.objects), uid, desired.spec) ==> ok && api.writes == old(api.writes)
      ensures existing != [] ==> SortByAge(existing) != [] && Kept(SortByAge(existing)[0], api.objects)
      ensures api.healthy && (existing != [] || desired.name !in old(api.objects)) ==> ok
      ensures existing == [] && desired.name in old(api.objects) ==> !ok
    {
      ghost var before := api.objects;
      ListedNames(existing, before, uid);
      ProgressRefl(before, uid, desired.spec);
      if |existing| == 0 {
        SelfUnchanged(desired.spec);
        if desired.name !in before { CreateProgress(before, desired, uid, desired.spec); }
        var err := api.Create(desired);
        return err == Ok;
      }
      if |existing| == 1 {
        assert existing[0].name in NamesOf(existing);
        assert ManagedNames(before, uid) == {existing[0].name} by {
          assert NamesOf(existing) == {existing[0].name};
        }
        ok := ReconcileTo(existing[0], desired.spec);
        MatchesWhenConverged(before, existing[0].name, uid, desired.spec);
        return;
      }
      var sorted := SortByAge(existing);
      SortKeeps(existing);
      PermutationLists(existing, sorted, before, uid);
      var deleted := DeleteSurplus(sorted, desired.spec);
      if !deleted {
        return false;
      }
      SingleListed(sorted[0], api.objects, uid);
      ghost var middle := api.objects;
      ghost var spent := api.writes - old(api.writes);
      ok := ReconcileTo(sorted[0], desired.spec);
      ProgressTrans(before, middle, api.objects, uid, desired.spec, spent, api.writes - old(api.writes) - spent);
    }

    /** Deletes all but the first listed object, stopping at the first error. */
    method DeleteSurplus(sorted: seq<ScaledObject>, desired: Spec) returns (ok: bool)
      requires |sorted| > 1 && WellKeyed(api.objects) && ListsManaged(sorted, api.objects, uid)
      modifies api`objects, api`writes
      ensures api.writes >= old(api.writes)
      ensures Progress(old(api.objects), api.objects, uid, desired, api.writes - old(api.writes))
      ensures ok ==> ListsManaged([sorted[0]], api.objects, uid)
      ensures Kept(sorted[0], api.objects)
      ensures api.healthy ==> ok
    {
      ghost var before := api.objects;
      ProgressRefl(before, uid, desired);
      LeftEnds(sorted);
      ok := true;
      var i := 1;
      while ok && i < |sorted|
        invariant 1 <= i <= |sorted| && api.writes >= old(api.writes)
        invariant Progress(before, api.objects, uid, desired, api.writes - old(api.writes))
        invariant ok ==> ListsManaged(Left(sorted, i), api.objects, uid)
        invariant Kept(sorted[0], api.objects)
        invariant api.healthy ==> ok
        decreases |sorted| - i, ok
      {
        LeftNext(sorted, i);
        var err := DeleteListed(sorted[i].name, Left(sorted, i), desired, before, api.writes - old(api.writes));
        if err == Ok {
          i := i + 1;
        } else {
          ok := false;
        }
      }
    }

    /** Deletes the second object of `left`, `spent` effective writes after `before`. */
    method DeleteListed(name: string, ghost left: seq<ScaledObject>, desired: Spec, ghost before: Store,
                        ghost spent: nat)
      returns (err: ApiError)
      requires |left| > 1 && left[1].name == name
      requires WellKeyed(api.objects) && ListsManaged(left, api.objects, uid)
      requires Progress(before, api.objects, uid, desired, spent)
      modifies api`objects, api`writes
      ensures api.writes >= old(api.writes)
      ensures Progress(before, api.objects, uid, desired, spent + (api.writes - old(api.writes)))
      ensures err == Ok ==> ListsManaged([left[0]] + left[2..], api.objects, uid)
      ensures Kept(left[0], api.objects)
      ensures api.healthy ==> err == Ok
    {
      ghost var s := api.objects;
      ListedNames(left, s, uid);
      DeleteProgress(s, name, uid, desired);
      WithoutSecond(left, s, uid);
      ProgressRefl(s, uid, desired);
      err := api.Delete(name);
      ProgressTrans(before, s, api.objects, uid, desired, spent, api.writes - old(api.writes));
    }

    /** One reconcile attempt: list, then sync. */
    method Attempt(desired: ScaledObject) returns (ok: bool)
      requires WellKeyed(api.objects) && Managed(desired, uid)
      modifies api`objects, api`writes
      ensures api.writes >= old(api.writes)
      ensures Progress(old(api.objects), api.objects, uid, desired.spec, api.writes - old(api.writes))
      ensures ok ==> Converged(api.objects, uid, desired.spec)
      ensures Converged(old(api.objects), uid, desired.spec) ==> api.writes == old(api.writes)
      ensures api.healthy && (ManagedNames(old(api.objects), uid) != {} || desired.name !in old(api.objects)) ==> ok
      ensures ManagedNames(old(api.objects), uid) == {} && desired.name in old(api.objects) ==> !ok
      ensures Untouched(old(api.objects), api.objects, uid) && KeepsOne(old(api.objects), api.objects, uid)
    {
      ProgressRefl(api.objects, uid, desired.spec);
      var managed := ListManagedScaledObjects();
      if managed.None? {
        return false;
      }
      ListedNames(managed.value, api.objects, uid);
      ok := SyncDesired(managed.value, desired);
    }

    /** One attempt while the API is in the given health. */
    method AttemptUnder(desired: ScaledObject, health: bool) returns (ok: bool)
      requires WellKeyed(api.objects) && Managed(desired, uid)
      modifies api
      ensures api.writes >= old(api.writes)
      ensures IsAttempt(old(api.objects), api.objects, api.writes - old(api.writes), health, uid, desired.name,
                        desired.spec)
      ensures ok ==> Converged(api.objects, uid, desired.spec)
    {
      api.healthy := health;
      ok := Attempt(desired);
    }

    /** Attempts over and over, while the API's health changes from one attempt to the next; `ok` says
        that some attempt succeeded. What happened is a run, so all that is proved of runs holds of
        it. */
    method AttemptRepeatedly(desired: ScaledObject, health: seq<bool>) returns (ok: bool, ghost run: Runs)
      requires WellKeyed(api.objects) && Managed(desired, uid)
      modifies api
      ensures Records(run, old(api.objects), api.objects, api.writes - old(api.writes), health, uid, desired.name,
                      desired.spec)
      ensures Progress(old(api.objects), api.objects, uid, desired.spec, Sum(run.writes))
      ensures Untouched(old(api.objects), api.objects, uid) && KeepsOne(old(api.objects), api.objects, uid)
      ensures ok ==> Converged(api.objects, uid, desired.spec)
      ensures true in health && (ManagedNames(old(api.objects), uid) != {} || desired.name !in old(api.objects))
              ==> Converged(api.objects, uid, desired.spec)
    {
      ghost var start, spent := api.objects, api.writes;
      ok, run := false, Runs([start], [], []);
      for i := 0 to |health|
        invariant WellKeyed(api.objects)
        invariant Records(run, start, api.objects, api.writes - spent, health[..i], uid, desired.name, desired.spec)
        invariant ok ==> Converged(api.objects, uid, desired.spec)
      {
        ghost var before, writes := api.objects, api.writes;
        var done := AttemptUnder(desired, health[i]);
        run := RecordsOneMore(run, start, before, writes - spent, health[..i], api.objects, api.writes - writes,
                              health[i], uid, desired.name, desired.spec);
        assert health[..i + 1] == health[..i] + [health[i]];
        ok := ok || done;
      }
      assert health[..|health|] == health;
      RunConcludes(run, start, api.objects, api.writes - spent, health, uid, desired.name, desired.spec);
      ProgressLeavesOthers(start, api.objects, uid, desired.spec, Sum(run.writes));
    }

    /** Deletes every managed object that is not already going away; a missing object counts as
        cleaned up. */
    method CleanupManagedScaledObjects() returns (ok: bool)
      requires WellKeyed(api.objects)
      modifies api`objects, api`writes
      ensures WellKeyed(api.objects)
      ensures forall name | name in old(api.objects) && !Managed(old(api.objects)[name], uid) ::
                name in api.objects && api.objects[name] == old(api.objects)[name]
      ensures forall name | name in api.objects ::
                name in old(api.objects) && api.objects[name] == old(api.objects)[name]
      ensures Untouched(old(api.objects), api.objects, uid)
      ensures ok ==> forall name | name in ManagedNames(api.objects, uid) :: api.objects[name].deleting
      ensures ok ==> forall name | name in api.objects && !Foreign(api.objects[name], uid) ::
                       api.objects[name].deleting
      ensures api.healthy ==> ok
    {
      var managed := ListManagedScaledObjects();
      if managed.None? {
        return false;
      }
      var items := managed.value;
      ghost var before := api.objects;
      for i := 0 to |items|
        invariant forall name | name in before && !Managed(before[name], uid) ::
                    name in api.objects && api.objects[name] == before[name]
        invariant forall name | name in api.objects :: name in before && api.objects[name] == before[name]
        invariant forall j | 0 <= j < i :: items[j].name in api.objects ==> items[j].deleting
      {
        if items[i].deleting {
          continue;
        }
        var err := api.Delete(items[i].name);
        if err == Failed {
          return false;
        }
      }
      forall name | name in ManagedNames(api.objects, uid) ensures api.objects[name].deleting {
        assert name in ManagedNames(before, uid);
        var j :| 0 <= j < |items| && items[j].name == name;
      }
      return true;
    }
  }

  lemma SelfUnchanged(s: Spec)
    ensures !SpecChanged(s, s)
  {
    SpecChangedIff(s, s);
  }

  lemma MatchedSingleton(s: Store, name: string, uid: string, desired: Spec)
    requires ManagedNames(s, uid) == {name} && name in s && !SpecChanged(s[name].spec, desired)
    ensures Converged(s, uid, desired)
  {
    forall n | n in s && Managed(s[n], uid) ensures n == name {
      assert n in ManagedNames(s, uid);
    }
  }

  lemma MatchesWhenConverged(s: Store, name: string, uid: string, desired: Spec)
    requires name in ManagedNames(s, uid)
    ensures Converged(s, uid, desired) ==> !SpecChanged(s[name].spec, desired)
  {
  }

  lemma SingleListed(so: ScaledObject, s: Store, uid: string)
    requires ListsManaged([so], s, uid)
    ensures ManagedNames(s, uid) == {so.name} && so.name in s && s[so.name] == so
  {
    ListedNames([so], s, uid);
    assert [so][0] == so && NamesOf([so]) == {so.name};
  }

  lemma WithoutSecond(items: seq<ScaledObject>, s: Store, uid: string)
    requires |items| > 1 && ListsManaged(items, s, uid)
    ensures ListsManaged([items[0]] + items[2..], s - {items[1].name}, uid)
  {
    var s', left := s - {items[1].name}, [items[0]] + items[2..];
    assert forall i | 0 < i < |left| :: left[i] == items[i + 1];
    forall name | name in ManagedNames(s', uid) ensures exists i | 0 <= i < |left| :: left[i].name == name {
      assert name in ManagedNames(s, uid);
      var i :| 0 <= i < |items| && items[i].name == name;
      assert left[if i == 0 then 0 else i - 1] == items[i];
    }
  }

  // --------------------------------------------------------------- whole runs

  /** The stores before, between and after a run of attempts, the effective writes each attempt made,
      and whether the API was healthy during it. */
  datatype Runs = Runs(stores: seq<Store>, writes: seq<nat>, healthy: seq<bool>)

  /** What one attempt does: progress, nothing to a converged store, and convergence on a healthy API
      unless nothing is managed and the name is taken. */
  ghost predicate IsAttempt(before: Store, after: Store, writes: nat, healthy: bool, uid: string, name: string,
                            desired: Spec) {
    && Progress(before, after, uid, desired, writes)
    && (Converged(before, uid, desired) ==> writes == 0)
    && (healthy && (ManagedNames(before, uid) != {} || name !in before) ==> Converged(after, uid, desired))
  }

  ghost predicate IsRun(r: Runs, uid: string, name: string, desired: Spec) {
    && |r.stores| == |r.writes| + 1 && |r.healthy| == |r.writes|
    && forall i | 0 <= i < |r.writes| ::
         IsAttempt(r.stores[i], r.stores[i + 1], r.writes[i], r.healthy[i], uid, name, desired)
  }

  function Sum(xs: seq<nat>): nat {
    if xs == [] then 0 else Sum(xs[..|xs| - 1]) + xs[|xs| - 1]
  }

  /** Attempts a to b - 1 of a run. */
  ghost function Part(r: Runs, a: nat, b: nat): Runs
    requires a <= b <= |r.writes| && |r.stores| == |r.writes| + 1 && |r.healthy| == |r.writes|
  {
    Runs(r.stores[a..b + 1], r.writes[a..b], r.healthy[a..b])
  }

  lemma PartIsRun(r: Runs, a: nat, b: nat, uid: string, name: string, desired: Spec)
    requires IsRun(r, uid, name, desired) && a <= b <= |r.writes|
    ensures IsRun(Part(r, a, b), uid, name, desired)
    ensures Part(r, a, b).stores[0] == r.stores[a] && Part(r, a, b).stores[b - a] == r.stores[b]
  {
    var p := Part(r, a, b);
    forall i | 0 <= i < |p.writes|
      ensures IsAttempt(p.stores[i], p.stores[i + 1], p.writes[i], p.healthy[i], uid, name, desired)
    {
      var j := a + i;
      assert IsAttempt(r.stores[j], r.stores[j + 1], r.writes[j], r.healthy[j], uid, name, desired);
    }
  }

  lemma RunOfOneMore(r: Runs, after: Store, writes: nat, healthy: bool, uid: string, name: string, desired: Spec)
    requires IsRun(r, uid, name, desired)
    requires IsAttempt(r.stores[|r.writes|], after, writes, healthy, uid, name, desired)
    ensures IsRun(Runs(r.stores + [after], r.writes + [writes], r.healthy + [healthy]), uid, name, desired)
    ensures Sum(r.writes + [writes]) == Sum(r.writes) + writes
  {
    var q := Runs(r.stores + [after], r.writes + [writes], r.healthy + [healthy]);
    assert q.writes[..|r.writes|] == r.writes;
    forall i | 0 <= i < |q.writes|
      ensures IsAttempt(q.stores[i], q.stores[i + 1], q.writes[i], q.healthy[i], uid, name, desired)
    {
      if i < |r.writes| {
        assert IsAttempt(r.stores[i], r.stores[i + 1], r.writes[i], r.healthy[i], uid, name, desired);
      }
    }
  }

  /** Over any run of attempts, however they fail, the end is reached from the start by progress
      alone: objects of others are never touched, the workload never loses its last managed
      object, and every write lowered what was left to do. */
  lemma {:induction false} RunsConverge(r: Runs, uid: string, name: string, desired: Spec)
    requires IsRun(r, uid, name, desired) && WellKeyed(r.stores[0])
    ensures Progress(r.stores[0], r.stores[|r.writes|], uid, desired, Sum(r.writes))
    decreases |r.writes|
  {
    var n := |r.writes|;
    if n == 0 {
      ProgressRefl(r.stores[0], uid, desired);
    } else {
      var i := n - 1;
      PartIsRun(r, 0, i, uid, name, desired);
      RunsConverge(Part(r, 0, i), uid, name, desired);
      assert IsAttempt(r.stores[i], r.stores[n], r.writes[i], r.healthy[i], uid, name, desired);
      assert r.writes[0..i] == r.writes[..i];
      ProgressTrans(r.stores[0], r.stores[i], r.stores[n], uid, desired, Sum(r.writes[..i]), r.writes[i]);
    }
  }

  /** No run makes more writes than there was work to do, and a run that makes that many has
      converged. */
  lemma RunWritesBounded(r: Runs, uid: string, name: string, desired: Spec)
    requires IsRun(r, uid, name, desired) && WellKeyed(r.stores[0])
    ensures Sum(r.writes) <= Measure(r.stores[0], uid, desired)
    ensures var owned := set name | name in r.stores[0] && !Foreign(r.stores[0][name], uid);
            Sum(r.writes) <= if owned == {} then 1 else |owned|
    ensures Sum(r.writes) == Measure(r.stores[0], uid, desired)
            ==> Converged(r.stores[|r.writes|], uid, desired)
  {
    RunsConverge(r, uid, name, desired);
    MeasureZero(r.stores[|r.writes|], uid, desired);
    assert ManagedNames(r.stores[0], uid) == set n | n in r.stores[0] && !Foreign(r.stores[0][n], uid);
  }

  /** Once converged, always converged: no later attempt changes anything. */
  lemma {:induction false} ConvergedStays(r: Runs, uid: string, name: string, desired: Spec)
    requires IsRun(r, uid, name, desired) && Converged(r.stores[0], uid, desired)
    ensures r.stores[|r.writes|] == r.stores[0] && Sum(r.writes) == 0
    decreases |r.writes|
  {
    var n := |r.writes|;
    if n > 0 {
      var i := n - 1;
      PartIsRun(r, 0, i, uid, name, desired);
      ConvergedStays(Part(r, 0, i), uid, name, desired);
      assert IsAttempt(r.stores[i], r.stores[n], r.writes[i], r.healthy[i], uid, name, desired);
      assert r.writes[0..i] == r.writes[..i];
    }
  }

  /** A name nobody else has at the start is never taken by somebody else during a run. */
  lemma NameStaysFree(before: Store, after: Store, uid: string, name: string, desired: Spec, writes: nat)
    requires Progress(before, after, uid, desired, writes)
    requires ManagedNames(before, uid) != {} || name !in before
    ensures ManagedNames(after, uid) != {} || name !in after
  {
    if name in after && name !in before {
      assert Managed(after[name], uid);
      assert name in ManagedNames(after, uid);
    }
  }

  /** The run leads from `start` to `end` by the given number of writes, in the given health. */
  ghost predicate Records(r: Runs, start: Store, end: Store, writes: int, health: seq<bool>, uid: string,
                          name: string, desired: Spec) {
    && IsRun(r, uid, name, desired) && r.healthy == health
    && r.stores[0] == start && r.stores[|r.writes|] == end && Sum(r.writes) == writes
  }

  lemma RecordsOneMore(r: Runs, start: Store, mid: Store, writes: int, health: seq<bool>, end: Store, more: nat,
                       h: bool, uid: string, name: string, desired: Spec)
    returns (q: Runs)
    requires Records(r, start, mid, writes, health, uid, name, desired)
    requires IsAttempt(mid, end, more, h, uid, name, desired)
    ensures Records(q, start, end, writes + more, health + [h], uid, name, desired)
  {
    q := Runs(r.stores + [end], r.writes + [more], r.healthy + [h]);
    RunOfOneMore(r, end, more, h, uid, name, desired);
  }

  lemma RunConcludes(r: Runs, start: Store, end: Store, writes: int, health: seq<bool>, uid: string, name: string,
                     desired: Spec)
    requires Records(r, start, end, writes, health, uid, name, desired) && WellKeyed(start)
    ensures Progress(start, end, uid, desired, Sum(r.writes))
    ensures true in health && (ManagedNames(start, uid) != {} || name !in start) ==> Converged(end, uid, desired)
  {
    RunsConverge(r, uid, name, desired);
    if true in health && (ManagedNames(start, uid) != {} || name !in start) {
      var i :| 0 <= i < |health| && health[i];
      OneHealthyAttemptConverges(r, uid, name, desired, i);
    }
  }

  /** A run that contains one attempt on a healthy API has converged, whatever failed before it and
      after it, unless nothing was managed at the start and the name was taken. */
  lemma OneHealthyAttemptConverges(r: Runs, uid: string, name: string, desired: Spec, i: nat)
    requires IsRun(r, uid, name, desired) && WellKeyed(r.stores[0])
    requires i < |r.writes| && r.healthy[i]
    requires ManagedNames(r.stores[0], uid) != {} || name !in r.stores[0]
    ensures Converged(r.stores[|r.writes|], uid, desired)
  {
    var n := |r.writes|;
    PartIsRun(r, 0, i, uid, name, desired);
    RunsConverge(Part(r, 0, i), uid, name, desired);
    NameStaysFree(r.stores[0], r.stores[i], uid, name, desired, Sum(Part(r, 0, i).writes));
    assert IsAttempt(r.stores[i], r.stores[i + 1], r.writes[i], r.healthy[i], uid, name, desired);
    PartIsRun(r, i + 1, n, uid, name, desired);
    ConvergedStays(Part(r, i + 1, n), uid, name, desired);
  }
}
