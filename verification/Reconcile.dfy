/** One pass over an InferenceSet (pkg/controllers/autoprovision/auto_provision_controller.go):
    replica bounds, validation, then tear-down or sync. */
module Reconcile {
  import opened Core
  import opened Numbers
  import opened Provisioner
  import opened Triggers
  import opened ScaledObjects
  import opened Reconciler

  /** What one pass reads. `specs` is the decoded metrics annotation, None when it is missing or
      cannot be decoded; `targetNodeCounts` the workspaces' status, None when listing fails. */
  datatype Input = Input(name: string, namespace: string, uid: string, address: string,
                         annotations: map<string, string>, specs: Option<seq<MetricSpec>>,
                         nodeCountLimit: int, targetNodeCounts: Option<seq<int>>,
                         quantity: string -> Option<string>)

  const MIN_KEY := PREFIX + "min-replicas"
  const MAX_KEY := PREFIX + "max-replicas"
  const AUTO_KEY := PREFIX + "auto-provision"

  function Clamp32(n: int): int {
    if n > MAX_INT32 then MAX_INT32 else n
  }

  /** Unparsable or negative falls back to 1; 0 requests scale-to-zero. */
  function ResolveMinReplicas(ann: map<string, string>): (n: int)
    ensures 0 <= n <= MAX_INT32
  {
    if MIN_KEY !in ann then 1
    else match Atoi(ann[MIN_KEY])
      case Some(v) => if v >= 0 then Clamp32(v) else 1
      case None => 1
  }

  /** Go's integer division truncates toward zero. */
  function TruncDiv(a: int, b: int): int
    requires b != 0
  {
    if (a >= 0) == (b > 0) then Abs(a) / Abs(b) else -(Abs(a) / Abs(b))
  }

  function Abs(n: int): nat {
    if n < 0 then -n else n
  }

  datatype Maximum = Max(n: int) | RequeueLater | ListFailed

  function FirstNonZero(counts: seq<int>): int {
    if counts == [] then 0 else if counts[0] != 0 then counts[0] else FirstNonZero(counts[1..])
  }

  function MaxReplicas(input: Input): Maximum {
    if input.nodeCountLimit == 0 then
      if MAX_KEY !in input.annotations then Max(1)
      else match Atoi(input.annotations[MAX_KEY])
        case Some(v) => Max(if v < 1 then 1 else Clamp32(v))
        case None => Max(1)
    else if input.targetNodeCounts.None? then ListFailed
    else
      var t := FirstNonZero(input.targetNodeCounts.value);
      if t == 0 then RequeueLater
      else
        var n := TruncDiv(input.nodeCountLimit, t);
        Max(if n < 1 then 1 else Clamp32(n))
  }

  method ResolveMaxReplicas(input: Input) returns (m: Maximum)
    ensures m == MaxReplicas(input)
    ensures m.Max? ==> 1 <= m.n <= MAX_INT32
  {
    if input.nodeCountLimit == 0 {
      if MAX_KEY in input.annotations {
        var v := Atoi(input.annotations[MAX_KEY]);
        if v.None? || v.value < 1 {
          return Max(1);
        }
        return Max(Clamp32(v.value));
      }
      return Max(1);
    }
    if input.targetNodeCounts.None? {
      return ListFailed;
    }
    var counts := input.targetNodeCounts.value;
    var target, i := 0, 0;
    while i < |counts| && target == 0
      invariant 0 <= i <= |counts|
      invariant FirstNonZero(counts) == if target != 0 then target else FirstNonZero(counts[i..])
    {
      assert counts[i..][1..] == counts[i + 1..];
      if counts[i] != 0 {
        target := counts[i];
      }
      i := i + 1;
    }
    if target == 0 {
      return RequeueLater;
    }
    var n := TruncDiv(input.nodeCountLimit, target);
    return Max(if n < 1 then 1 else Clamp32(n));
  }

  /** With a node-count limit the max-replicas annotation is validated but plays no part in the
      maximum. */
  lemma NodeLimitOverridesAnnotation(a: Input, b: Input)
    requires a.nodeCountLimit == b.nodeCountLimit != 0 && a.targetNodeCounts == b.targetNodeCounts
    ensures MaxReplicas(a) == MaxReplicas(b)
  {
  }

  /** For instance "3" asks for at most three replicas, but a limit of eight nodes at one node each
      allows eight. */
  lemma NodeLimitBeatsSmallerAnnotation(input: Input)
    requires input.annotations == map[MIN_KEY := "1", MAX_KEY := "3"]
    requires input.nodeCountLimit == 8 && input.targetNodeCounts == Some([1])
    ensures RangeOk(input, ResolveMinReplicas(input.annotations)) && MaxReplicas(input) == Max(8)
    ensures MaxReplicas(input.(nodeCountLimit := 0)) == Max(3)
  {
    assert |MIN_KEY| == |MAX_KEY| == 34 && MIN_KEY[23] == 'i' && MAX_KEY[23] == 'a';
    AtoiOfDigit("1");
    AtoiOfDigit("3");
    assert TruncDiv(8, 1) == 8;
  }

  /** Exactly when the annotation bounds the maximum: there is no node-count limit, or v + 1 replicas
      need more nodes than it allows (or v is beyond what the field holds). Without a limit the
      maximum is the annotation itself, clamped. */
  lemma AnnotationBoundsExactlyWhen(input: Input, v: int)
    requires MAX_KEY in input.annotations && Atoi(input.annotations[MAX_KEY]) == Some(v) && v >= 1
    requires input.nodeCountLimit != 0 ==>
               input.targetNodeCounts.Some? && FirstNonZero(input.targetNodeCounts.value) > 0
    ensures MaxReplicas(input).Max?
    ensures MaxReplicas(input).n <= v <==>
              || input.nodeCountLimit == 0 || v >= MAX_INT32
              || input.nodeCountLimit < (v + 1) * FirstNonZero(input.targetNodeCounts.value)
    ensures input.nodeCountLimit == 0 ==> MaxReplicas(input) == Max(Clamp32(v))
  {
    var limit := input.nodeCountLimit;
    if limit != 0 {
      var t := FirstNonZero(input.targetNodeCounts.value);
      QuotientAtMost(limit, t, v);
      var q := TruncDiv(limit, t);
      assert MaxReplicas(input) == Max(if q < 1 then 1 else Clamp32(q));
    }
  }

  lemma QuotientAtMost(limit: int, t: nat, v: int)
    requires t > 0 && v >= 1
    ensures TruncDiv(limit, t) <= v <==> limit < (v + 1) * t
  {
    if limit >= 0 {
      DivAtMost(limit, t, v);
    } else {
      assert (v + 1) * t > 0;
    }
  }

  lemma DivAtMost(limit: nat, t: nat, v: int)
    requires t > 0
    ensures limit / t <= v <==> limit < (v + 1) * t
  {
    var q, r := limit / t, limit % t;
    assert limit == q * t + r;
    if q <= v {
      MulOrder(q + 1, v + 1, t);
      assert (q + 1) * t == q * t + t;
    } else {
      MulOrder(v + 1, q, t);
    }
  }

  lemma MulOrder(a: int, b: int, t: nat)
    requires a <= b
    ensures a * t <= b * t
  {
    assert (b - a) * t >= 0;
  }

  lemma AtoiOfDigit(s: string)
    requires |s| == 1 && IsDigit(s[0])
    ensures Atoi(s) == Some(DigitValue(s[0]))
  {
    assert s[..0] == "" && DigitsValue(s) == DigitValue(s[0]);
  }

  /** Without clamping, the maximum is the most replicas whose nodes fit the node-count limit. */
  lemma NodeLimitIsTight(input: Input)
    requires input.targetNodeCounts.Some?
    requires var t := FirstNonZero(input.targetNodeCounts.value);
             t > 0 && t <= input.nodeCountLimit <= MAX_INT32
    ensures var t := FirstNonZero(input.targetNodeCounts.value);
            var m := MaxReplicas(input);
            m.Max? && m.n * t <= input.nodeCountLimit < (m.n + 1) * t
  {
    var t, limit := FirstNonZero(input.targetNodeCounts.value), input.nodeCountLimit;
    var q := limit / t;
    assert limit == q * t + limit % t;
    QuotientRange(limit, t);
    assert (q + 1) * t == q * t + t;
  }

  lemma PositiveFactor(q: int, t: int)
    requires t > 0 && q * t > 0
    ensures 1 <= q <= q * t
  {
  }

  lemma QuotientRange(limit: int, t: int)
    requires 0 < t <= limit
    ensures 1 <= limit / t <= limit
  {
    var q, r := limit / t, limit % t;
    assert limit == q * t + r && 0 <= r < t;
    PositiveFactor(q, t);
  }

  /** Scale-to-zero is requested exactly by an annotation that reads as 0. */
  lemma ScaleToZeroExactlyWhen(ann: map<string, string>)
    ensures ResolveMinReplicas(ann) == 0 <==> MIN_KEY in ann && Atoi(ann[MIN_KEY]) == Some(0)
  {
  }

  /** The replica range the annotations promise. */
  predicate RangeOk(input: Input, minReplicas: int) {
    if MAX_KEY in input.annotations then
      match Atoi(input.annotations[MAX_KEY])
      case Some(v) => v >= 1 && v >= minReplicas
      case None => false
    else input.nodeCountLimit != 0
  }

  /** What the replica and provisioning annotations say, key by key. */
  lemma AnnotationsRead(input: Input)
    ensures var ann := input.annotations;
            && (Requested(input) <==> "scaledobject.kaito.sh/auto-provision" in ann
                                      && ann["scaledobject.kaito.sh/auto-provision"] == "true")
            && (CombinesByAnd(ann) <==>
                  "scaledobject.kaito.sh/combinepolicy" !in ann
                  || ann["scaledobject.kaito.sh/combinepolicy"]
                     in {"", "and", "And", "aNd", "anD", "ANd", "AnD", "aND", "AND"})
    ensures var key := "scaledobject.kaito.sh/min-replicas";
            var read := if key in input.annotations then Atoi(input.annotations[key]) else None;
            ResolveMinReplicas(input.annotations)
            == if read.None? || read.value < 0 then 1
               else if read.value > 0x7FFF_FFFF then 0x7FFF_FFFF
               else read.value
    ensures forall min :: RangeOk(input, min) <==>
              var key := "scaledobject.kaito.sh/max-replicas";
              if key in input.annotations
              then var read := Atoi(input.annotations[key]); read.Some? && read.value >= 1 && read.value >= min
              else input.nodeCountLimit != 0
  {
    assert AUTO_KEY == "scaledobject.kaito.sh/auto-provision";
    assert MIN_KEY == "scaledobject.kaito.sh/min-replicas" && MAX_KEY == "scaledobject.kaito.sh/max-replicas";
    assert PREFIX + "combinepolicy" == "scaledobject.kaito.sh/combinepolicy";
    AndSpellings(Annotation(input.annotations, "combinepolicy"));
  }

  lemma AndSpellings(p: string)
    ensures |p| == 3 && p[0] in {'A', 'a'} && p[1] in {'N', 'n'} && p[2] in {'D', 'd'}
            <==> p in {"and", "And", "aNd", "anD", "ANd", "AnD", "aND", "AND"}
  {
    if |p| == 3 {
      assert p == [p[0], p[1], p[2]];
    }
  }

  /** The node count of a workload is the first one that is not 0. */
  lemma {:induction false} FirstNonZeroIsFirst(counts: seq<int>, i: nat)
    ensures i < |counts| && counts[i] != 0 && (forall j | 0 <= j < i :: counts[j] == 0)
            ==> FirstNonZero(counts) == counts[i]
    ensures FirstNonZero(counts) == 0 <==> forall j | 0 <= j < |counts| :: counts[j] == 0
  {
    if counts != [] {
      var rest := counts[1..];
      assert forall j | 0 < j < |counts| :: counts[j] == rest[j - 1];
      assert forall j | 0 <= j < |rest| :: rest[j] == counts[j + 1];
      FirstNonZeroIsFirst(rest, if i > 0 then i - 1 else 0);
    }
  }

  /** Without a node-count limit the maximum is the annotation, at least 1 and clamped to int32; with one,
      an unlisted workspace or one without nodes yet decides nothing. */
  lemma MaxReplicasRead(input: Input)
    ensures var key := "scaledobject.kaito.sh/max-replicas";
            var read := if key in input.annotations then Atoi(input.annotations[key]) else None;
            input.nodeCountLimit == 0 ==>
              MaxReplicas(input) == Max(if read.None? || read.value < 1 then 1
                                        else if read.value > 0x7FFF_FFFF then 0x7FFF_FFFF
                                        else read.value)
    ensures MaxReplicas(input).ListFailed? <==> input.nodeCountLimit != 0 && input.targetNodeCounts.None?
    ensures MaxReplicas(input).RequeueLater? <==>
              && input.nodeCountLimit != 0 && input.targetNodeCounts.Some?
              && forall j | 0 <= j < |input.targetNodeCounts.value| :: input.targetNodeCounts.value[j] == 0
  {
    assert MAX_KEY == "scaledobject.kaito.sh/max-replicas";
    if input.targetNodeCounts.Some? {
      FirstNonZeroIsFirst(input.targetNodeCounts.value, 0);
    }
  }

  datatype Plan =
    | TearDown
    | Skip
    | Requeue
    | Retry
    | Sync(min: int, max: int, metrics: seq<Metric>, globals: Globals)

  predicate Requested(input: Input) {
    AUTO_KEY in input.annotations && input.annotations[AUTO_KEY] == "true"
  }

  /** AND, in any case, is the only registered combine policy; absent or empty means AND. */
  predicate CombinesByAnd(ann: map<string, string>) {
    var p := Annotation(ann, "combinepolicy");
    p == "" || (|p| == 3 && p[0] in {'A', 'a'} && p[1] in {'N', 'n'} && p[2] in {'D', 'd'})
  }

  /** The annotations describe a configuration that can be provisioned. */
  predicate Configured(input: Input) {
    var min := ResolveMinReplicas(input.annotations);
    && RangeOk(input, min) && CombinesByAnd(input.annotations)
    && input.specs.Some? && Parses(input.specs.value, min == 0)
    && ParseGlobals(input.annotations, min == 0, input.quantity).Some?
  }

  /** Exactly what each plan stands for. */
  ghost predicate IsPlan(input: Input, plan: Plan) {
    var min, max := ResolveMinReplicas(input.annotations), MaxReplicas(input);
    && (plan.TearDown? <==> !Requested(input))
    && (plan.Retry? <==> Requested(input) && Configured(input) && max.ListFailed?)
    && (plan.Requeue? <==> Requested(input) && Configured(input) && max.RequeueLater?)
    && (plan.Sync? <==> Requested(input) && Configured(input) && max.Max? && min <= max.n)
    && (plan.Sync? ==>
          && plan.min == min && plan.max == max.n
          && Some(plan.globals) == ParseGlobals(input.annotations, min == 0, input.quantity)
          && plan.metrics == MetricsOf(input.specs.value, |input.specs.value|, min == 0))
  }

  /** Decides what to do: a sync is planned exactly when auto-provisioning is requested, the
      configuration is accepted and the maximum is known and not below the minimum. It then has an
      accepted metric list and a proper int32 range. */
  method MakePlan(input: Input) returns (plan: Plan)
    ensures IsPlan(input, plan)
    ensures plan.Skip? <==>
              && Requested(input)
              && (!Configured(input)
                  || (MaxReplicas(input).Max? && MaxReplicas(input).n < ResolveMinReplicas(input.annotations)))
    ensures plan.TearDown? <==>
              !("scaledobject.kaito.sh/auto-provision" in input.annotations
                && input.annotations["scaledobject.kaito.sh/auto-provision"] == "true")
    ensures plan.Sync? ==>
              0 <= plan.min <= plan.max <= MAX_INT32 && plan.max >= 1 && Accepted(plan.metrics, plan.min == 0)
  {
    AnnotationsRead(input);
    if !Requested(input) {
      return TearDown;
    }
    var minReplicas := ResolveMinReplicas(input.annotations);
    if !RangeOk(input, minReplicas) || !CombinesByAnd(input.annotations) || input.specs.None? {
      return Skip;
    }
    var parsed := ParseMetrics(input.specs.value, minReplicas);
    var globals := ParseGlobals(input.annotations, minReplicas == 0, input.quantity);
    if parsed.Failure? || globals.None? {
      return Skip;
    }
    var maxReplicas := ResolveMaxReplicas(input);
    match maxReplicas
    case ListFailed => return Retry;
    case RequeueLater => return Requeue;
    case Max(n) =>
      if n < minReplicas {
        return Skip;
      }
      return Sync(minReplicas, n, parsed.value, globals.value);
  }

  /** With the range taken from the annotations, a valid configuration is never skipped for its
      range: clamping both bounds to int32 keeps them ordered. */
  lemma AnnotationRangeIsProper(input: Input)
    requires input.nodeCountLimit == 0 && RangeOk(input, ResolveMinReplicas(input.annotations))
    ensures MaxReplicas(input).Max? && MaxReplicas(input).n >= ResolveMinReplicas(input.annotations)
  {
  }

  function SiteOf(input: Input): Site {
    Site(input.name, input.namespace, input.address)
  }

  const MANAGED_BY := PREFIX + "managed-by"
  const SCALER_NAME := "keda-kaito-scaler"

  /** The object to create is controlled by the InferenceSet it scales and carries its name; what
      it is created with counts as managed and as up to date. */
  method BuildScaledObject(input: Input, metrics: seq<Metric>, g: Globals, minReplicas: int, maxReplicas: int)
    returns (so: ScaledObject)
    requires Accepted(metrics, minReplicas == 0)
    ensures so.name == input.name && so.annotations == map[MANAGED_BY := SCALER_NAME] && !so.deleting
    ensures so.spec == DesiredSpec(metrics, g, SiteOf(input), minReplicas, maxReplicas)
    ensures so.spec.target.Some? && so.controller == Some(Owner(so.spec.target.value, input.uid, true))
    ensures so.spec.target.value == Reference(API_VERSION, INFERENCE_SET, input.name)
    ensures so.spec.triggers == TriggersOf(metrics, Site(input.name, input.namespace, input.address), minReplicas)
    ensures Managed(so, input.uid)
  {
    var spec := BuildScaledObjectSpec(metrics, g, SiteOf(input), minReplicas, maxReplicas);
    var owner := Owner(Reference(API_VERSION, INFERENCE_SET, input.name), input.uid, true);
    so := ScaledObject(input.name, Some(owner), map[MANAGED_BY := SCALER_NAME], 0, false, spec);
  }

  /** Builds the desired object and syncs it. */
  method Provision(c: Controller, input: Input, desired: ScaledObject) returns (ok: bool)
    requires WellKeyed(c.api.objects) && c.uid == input.uid && Managed(desired, input.uid)
    modifies c.api`objects, c.api`writes
    ensures Untouched(old(c.api.objects), c.api.objects, input.uid)
    ensures KeepsOne(old(c.api.objects), c.api.objects, input.uid)
    ensures ManagedNames(old(c.api.objects), input.uid) != {} ==> ManagedNames(c.api.objects, input.uid) != {}
    ensures ok ==> Converged(c.api.objects, input.uid, desired.spec)
    ensures Converged(old(c.api.objects), input.uid, desired.spec) ==> c.api.objects == old(c.api.objects)
    ensures c.api.healthy ==>
              (ok <==> ManagedNames(old(c.api.objects), input.uid) != {} || desired.name !in old(c.api.objects))
  {
    ok := c.Attempt(desired);
  }

  /** One reconcile pass, which does what is planned. Objects of others are never touched; while
      auto-provisioning is requested the last managed object is never lost; success means the
      desired state holds; and on a healthy API a pass fails exactly when workspaces cannot be listed
      or nothing is managed and somebody else's object has the name. */
  method ReconcileOnce(c: Controller, input: Input) returns (ok: bool, plan: Plan)
    requires WellKeyed(c.api.objects) && c.uid == input.uid
    modifies c.api`objects, c.api`writes
    ensures IsPlan(input, plan)
    ensures Untouched(old(c.api.objects), c.api.objects, input.uid)
    ensures Requested(input) && ManagedNames(old(c.api.objects), input.uid) != {} ==>
              ManagedNames(c.api.objects, input.uid) != {}
    ensures Requested(input) ==> KeepsOne(old(c.api.objects), c.api.objects, input.uid)
    ensures plan.TearDown? && ok ==>
              forall name | name in c.api.objects && !Foreign(c.api.objects[name], input.uid) ::
                c.api.objects[name].deleting
    ensures plan.Skip? || plan.Requeue? || plan.Retry? ==> c.api.objects == old(c.api.objects)
    ensures plan.Sync? ==>
              var spec := DesiredSpec(plan.metrics, plan.globals, SiteOf(input), plan.min, plan.max);
              && (ok ==> Converged(c.api.objects, input.uid, spec))
              && (Converged(old(c.api.objects), input.uid, spec) ==> c.api.objects == old(c.api.objects))
    ensures c.api.healthy ==>
              (ok <==> !plan.Retry?
                       && (plan.Sync? ==> ManagedNames(old(c.api.objects), input.uid) != {}
                                          || input.name !in old(c.api.objects)))
  {
    plan := MakePlan(input);
    match plan
    case TearDown =>
      ok := c.CleanupManagedScaledObjects();
    case Skip => ok := true;
    case Requeue => ok := true;
    case Retry => ok := false;
    case Sync(min, max, metrics, globals) =>
      var desired := BuildScaledObject(input, metrics, globals, min, max);
      ok := Provision(c, input, desired);
  }
}
