/** The ScaledObject the controller manages: how the desired one is assembled
    (pkg/scaledobject/provisioner.go) and when an existing one counts as different
    (pkg/controllers/autoprovision/auto_provision_controller.go). A resource quantity is its
    canonical string. */
module ScaledObjects {
  import opened Core
  import opened Numbers
  import opened FormulaText
  import opened Provisioner
  import F = Formula
  import opened Triggers

  datatype Policy = Policy(kind: string, value: int, period: int)

  datatype Rules = Rules(stabilization: Option<int>, tolerance: Option<string>, policies: seq<Policy>,
                         selectPolicy: Option<string>)

  datatype Behavior = Behavior(up: Option<Rules>, down: Option<Rules>)

  datatype HpaConfig = HpaConfig(name: string, behavior: Option<Behavior>)

  datatype Modifiers = Modifiers(formula: string, target: string, activationTarget: string, metricType: string)

  datatype Advanced = Advanced(modifiers: Modifiers, hpa: Option<HpaConfig>, restoreOriginal: bool)

  datatype Reference = Reference(apiVersion: string, kind: string, name: string)

  const INFERENCE_SET := "InferenceSet"
  const API_VERSION := "kaito.sh/v1beta1"

  /** `rest` stands, beside the scale target, for every field the controller does not manage. */
  datatype Spec = Spec(min: Option<int>, max: Option<int>, polling: Option<int>, cooldown: Option<int>,
                       initialCooldown: Option<int>, triggers: seq<Trigger>, advanced: Option<Advanced>,
                       target: Option<Reference>, rest: string)

  // --------------------------------------------------------- global settings

  datatype Globals = Globals(upStabilization: int, upCooldown: int, downStabilization: int, downCooldown: int,
                             upTolerance: string, downTolerance: string,
                             cooldown: Option<int>, initialCooldown: Option<int>)

  const PREFIX := "scaledobject.kaito.sh/"

  function Annotation(ann: map<string, string>, key: string): string {
    if PREFIX + key in ann then ann[PREFIX + key] else ""
  }

  /** A non-negative int32 number of seconds; absent or empty means the default. */
  function ParseSeconds(ann: map<string, string>, key: string, default: int): Option<int> {
    var v := Annotation(ann, key);
    if v == "" then Some(default)
    else match Atoi(v)
      case Some(n) => if 0 <= n <= MAX_INT32 then Some(n) else None
      case None => None
  }

  function ParseStabilization(ann: map<string, string>, key: string, default: int): Option<int> {
    match ParseSeconds(ann, key, default)
    case Some(n) => if n > 3600 then None else Some(n)
    case None => None
  }

  /** `quantity` is the foreign number parser: the canonical string of a finite non-negative
      ratio. */
  function ParseTolerance(ann: map<string, string>, key: string, quantity: string -> Option<string>)
    : Option<string>
  {
    if Annotation(ann, key) == "" then Some("100m") else quantity(Annotation(ann, key))
  }

  function ParseGlobals(ann: map<string, string>, scaleToZero: bool, quantity: string -> Option<string>)
    : Option<Globals>
  {
    match (ParseStabilization(ann, "scaleupstabilizationwindow", 60), ParseSeconds(ann, "scaleupcooldown", 900),
           ParseSeconds(ann, "scaledowncooldown", 1800),
           ParseStabilization(ann, "scaledownstabilizationwindow", 1800))
    case (Some(us), Some(uc), Some(dc), Some(ds)) =>
      (match (ParseTolerance(ann, "scaleuptolerance", quantity), ParseTolerance(ann, "scaledowntolerance", quantity))
       case (Some(ut), Some(dt)) =>
         if scaleToZero then
           match (ParseSeconds(ann, "cooldownperiod", 1800), ParseSeconds(ann, "initialcooldownperiod", 1800))
           case (Some(c), Some(i)) => Some(Globals(us, uc, ds, dc, ut, dt, Some(c), Some(i)))
           case _ => None
         else if PREFIX + "cooldownperiod" in ann || PREFIX + "initialcooldownperiod" in ann then None
         else Some(Globals(us, uc, ds, dc, ut, dt, None, None))
       case _ => None)
    case _ => None
  }

  /** Accepted stabilization windows are in the range the HPA API enforces; the cooldowns are only
      known to be non-negative int32, and those of scale-to-zero exist exactly under scale-to-zero. */
  lemma GlobalsInRange(ann: map<string, string>, scaleToZero: bool, quantity: string -> Option<string>)
    requires ParseGlobals(ann, scaleToZero, quantity).Some?
    ensures var g := ParseGlobals(ann, scaleToZero, quantity).value;
            && 0 <= g.upStabilization <= 3600 && 0 <= g.downStabilization <= 3600
            && 0 <= g.upCooldown <= MAX_INT32 && 0 <= g.downCooldown <= MAX_INT32
            && (g.cooldown.Some? <==> scaleToZero) && (g.initialCooldown.Some? <==> scaleToZero)
            && (scaleToZero ==> 0 <= g.cooldown.value <= MAX_INT32 && 0 <= g.initialCooldown.value <= MAX_INT32)
  {
  }

  // -------------------------------------------------------------- assembling

  /** One pod per cooldown period in each direction. */
  function BuildHpaConfig(g: Globals): HpaConfig {
    HpaConfig("", Some(Behavior(
      Some(Rules(Some(g.upStabilization), Some(g.upTolerance), [Policy("Pods", 1, g.upCooldown)], Some("Max"))),
      Some(Rules(Some(g.downStabilization), Some(g.downTolerance), [Policy("Pods", 1, g.downCooldown)],
                 Some("Max"))))))
  }

  /** The periods the HPA API takes for a scaling policy, in seconds. */
  predicate PeriodInRange(seconds: int) {
    1 <= seconds <= 1800
  }

  /** Every policy of the built configuration has a period the API takes. */
  ghost predicate PoliciesInRange(h: HpaConfig) {
    && h.behavior.Some? && h.behavior.value.up.Some? && h.behavior.value.down.Some?
    && (forall i | 0 <= i < |h.behavior.value.up.value.policies| ::
          PeriodInRange(h.behavior.value.up.value.policies[i].period))
    && (forall i | 0 <= i < |h.behavior.value.down.value.policies| ::
          PeriodInRange(h.behavior.value.down.value.policies[i].period))
  }

  /** Validation takes any non-negative int32 as a cooldown, so what it accepts yields policies the
      API takes exactly when both cooldown annotations read as 1 to 1800 seconds. */
  lemma PeriodsInRangeExactlyWhen(ann: map<string, string>, scaleToZero: bool, quantity: string -> Option<string>)
    requires ParseGlobals(ann, scaleToZero, quantity).Some?
    ensures var up, down := ParseSeconds(ann, "scaleupcooldown", 900), ParseSeconds(ann, "scaledowncooldown", 1800);
            && up.Some? && down.Some?
            && (PoliciesInRange(BuildHpaConfig(ParseGlobals(ann, scaleToZero, quantity).value))
                <==> PeriodInRange(up.value) && PeriodInRange(down.value))
  {
    var b := BuildHpaConfig(ParseGlobals(ann, scaleToZero, quantity).value).behavior.value;
    var up, down := b.up.value.policies, b.down.value.policies;
    assert up[0].period == ParseSeconds(ann, "scaleupcooldown", 900).value;
    assert down[0].period == ParseSeconds(ann, "scaledowncooldown", 1800).value;
  }

  /** For instance a scale-up cooldown of "0" is accepted and printed as a period of 0 seconds. */
  lemma ZeroCooldownIsAccepted(quantity: string -> Option<string>)
    ensures var g := ParseGlobals(map[PREFIX + "scaleupcooldown" := "0"], false, quantity);
            && g.Some?
            && BuildHpaConfig(g.value).behavior.value.up.value.policies == [Policy("Pods", 1, 0)]
            && !PoliciesInRange(BuildHpaConfig(g.value))
  {
    var ann := map[PREFIX + "scaleupcooldown" := "0"];
    OnlyKey(ann, "scaleupcooldown", "scaleupstabilizationwindow");
    OnlyKey(ann, "scaleupcooldown", "scaledowncooldown");
    OnlyKey(ann, "scaleupcooldown", "scaledownstabilizationwindow");
    OnlyKey(ann, "scaleupcooldown", "scaleuptolerance");
    OnlyKey(ann, "scaleupcooldown", "scaledowntolerance");
    OnlyKey(ann, "scaleupcooldown", "cooldownperiod");
    OnlyKey(ann, "scaleupcooldown", "initialcooldownperiod");
    assert DigitsValue("0") == 0 && Atoi("0") == Some(0);
    PeriodsInRangeExactlyWhen(ann, false, quantity);
  }

  lemma OnlyKey(ann: map<string, string>, present: string, other: string)
    requires ann.Keys == {PREFIX + present} && |other| != |present|
    ensures PREFIX + other !in ann
  {
    assert |PREFIX + other| != |PREFIX + present|;
  }

  /** The annotation reads as n; absent or empty it stands for the default. */
  predicate ReadsAs(ann: map<string, string>, key: string, default: int, n: int) {
    if key !in ann || ann[key] == "" then n == default else Atoi(ann[key]) == Some(n)
  }

  predicate IsSeconds(ann: map<string, string>, key: string, max: int) {
    key !in ann || ann[key] == ""
    || (Atoi(ann[key]).Some? && 0 <= Atoi(ann[key]).value <= max)
  }

  predicate IsTolerance(ann: map<string, string>, key: string, quantity: string -> Option<string>) {
    Annotation(ann, key) == "" || quantity(Annotation(ann, key)).Some?
  }

  /** The cooldowns of scale-to-zero: well-formed with it, absent without. */
  predicate ZeroCooldownsOk(ann: map<string, string>, scaleToZero: bool) {
    if scaleToZero then
      IsSeconds(ann, PREFIX + "cooldownperiod", 0x7FFF_FFFF)
      && IsSeconds(ann, PREFIX + "initialcooldownperiod", 0x7FFF_FFFF)
    else
      PREFIX + "cooldownperiod" !in ann && PREFIX + "initialcooldownperiod" !in ann
  }

  /** Exactly when the global settings are accepted: each number of seconds is well-formed and in range,
      each tolerance reads as a quantity, and the cooldowns of scale-to-zero are given only with it. */
  lemma GlobalsAcceptedExactlyWhen(ann: map<string, string>, scaleToZero: bool, quantity: string -> Option<string>)
    ensures ParseGlobals(ann, scaleToZero, quantity).Some? <==>
              && IsSeconds(ann, PREFIX + "scaleupstabilizationwindow", 3600)
              && IsSeconds(ann, PREFIX + "scaledownstabilizationwindow", 3600)
              && IsSeconds(ann, PREFIX + "scaleupcooldown", 0x7FFF_FFFF)
              && IsSeconds(ann, PREFIX + "scaledowncooldown", 0x7FFF_FFFF)
              && IsTolerance(ann, "scaleuptolerance", quantity) && IsTolerance(ann, "scaledowntolerance", quantity)
              && ZeroCooldownsOk(ann, scaleToZero)
  {
  }

  /** The rules of one direction: the window, cooldown and tolerance annotations of that direction, or
      their defaults, one pod per cooldown. */
  predicate RulesRead(r: Option<Rules>, ann: map<string, string>, windowKey: string, window: int, cooldownKey: string,
                      cooldown: int, tolerance: Option<string>) {
    && r.Some? && r.value.stabilization.Some? && |r.value.policies| == 1
    && ReadsAs(ann, windowKey, window, r.value.stabilization.value)
    && ReadsAs(ann, cooldownKey, cooldown, r.value.policies[0].period)
    && r.value.policies[0].kind == "Pods" && r.value.policies[0].value == 1
    && r.value.selectPolicy == Some("Max") && r.value.tolerance == tolerance
  }

  /** What becomes of each annotation: the stabilization windows, cooldowns and tolerances of each
      direction end up in the rules of that direction, one pod per cooldown; the cooldowns of
      scale-to-zero are kept for KEDA. */
  lemma AnnotationsReachTheObject(ann: map<string, string>, scaleToZero: bool, quantity: string -> Option<string>)
    requires ParseGlobals(ann, scaleToZero, quantity).Some?
    ensures BuildHpaConfig(ParseGlobals(ann, scaleToZero, quantity).value).behavior.Some?
    ensures var up := BuildHpaConfig(ParseGlobals(ann, scaleToZero, quantity).value).behavior.value.up;
            RulesRead(up, ann, PREFIX + "scaleupstabilizationwindow", 60,
                      PREFIX + "scaleupcooldown", 900,
                      if Annotation(ann, "scaleuptolerance") == "" then Some("100m")
                      else quantity(Annotation(ann, "scaleuptolerance")))
    ensures var down := BuildHpaConfig(ParseGlobals(ann, scaleToZero, quantity).value).behavior.value.down;
            RulesRead(down, ann, PREFIX + "scaledownstabilizationwindow", 1800,
                      PREFIX + "scaledowncooldown", 1800,
                      if Annotation(ann, "scaledowntolerance") == "" then Some("100m")
                      else quantity(Annotation(ann, "scaledowntolerance")))
    ensures scaleToZero ==>
              var g := ParseGlobals(ann, scaleToZero, quantity).value;
              && g.cooldown.Some? && g.initialCooldown.Some?
              && ReadsAs(ann, PREFIX + "cooldownperiod", 1800, g.cooldown.value)
              && ReadsAs(ann, PREFIX + "initialcooldownperiod", 1800, g.initialCooldown.value)
    ensures !scaleToZero ==>
              var g := ParseGlobals(ann, scaleToZero, quantity).value;
              g.cooldown.None? && g.initialCooldown.None?
  {
  }

  function DesiredSpec(metrics: seq<Metric>, g: Globals, site: Site, minReplicas: int, maxReplicas: int): Spec {
    var text := TreeText(F.FormulaTree(metrics, minReplicas, maxReplicas));
    Spec(Some(minReplicas), Some(maxReplicas), Some(15),
         if minReplicas == 0 then g.cooldown else None,
         if minReplicas == 0 then g.initialCooldown else None,
         TriggersOf(metrics, site, minReplicas),
         Some(Advanced(Modifiers(text, "1", if minReplicas == 0 then "0" else "", "Value"),
                       Some(BuildHpaConfig(g)), false)),
         Some(Reference(API_VERSION, INFERENCE_SET, site.name)), "")
  }

  method BuildScaledObjectSpec(metrics: seq<Metric>, g: Globals, site: Site, minReplicas: int, maxReplicas: int)
    returns (spec: Spec)
    requires Accepted(metrics, minReplicas == 0)
    ensures spec == DesiredSpec(metrics, g, site, minReplicas, maxReplicas)
    ensures spec.min == Some(minReplicas) && spec.max == Some(maxReplicas) && spec.polling == Some(15)
    ensures minReplicas == 0 ==> spec.cooldown == g.cooldown && spec.initialCooldown == g.initialCooldown
    ensures minReplicas != 0 ==> spec.cooldown.None? && spec.initialCooldown.None?
    ensures spec.triggers == TriggersOf(metrics, site, minReplicas)
    ensures spec.advanced.Some? && !spec.advanced.value.restoreOriginal
            && spec.advanced.value.hpa == Some(BuildHpaConfig(g))
    ensures spec.advanced.value.modifiers
            == Modifiers(TreeText(F.FormulaTree(metrics, minReplicas, maxReplicas)), "1",
                         if minReplicas == 0 then "0" else "", "Value")
    ensures spec.target == Some(Reference("kaito.sh/v1beta1", "InferenceSet", site.name))
  {
    var formula := F.BuildFormula(metrics, minReplicas, maxReplicas);
    var triggers := BuildTriggers(metrics, site, minReplicas);
    var modifiers := Modifiers(formula, "1", "", "Value");
    if minReplicas == 0 {
      modifiers := modifiers.(activationTarget := "0");
    }
    spec := Spec(Some(minReplicas), Some(maxReplicas), Some(15), None, None, triggers,
                 Some(Advanced(modifiers, Some(BuildHpaConfig(g)), false)),
                 Some(Reference(API_VERSION, INFERENCE_SET, site.name)), "");
    if minReplicas == 0 {
      spec := spec.(cooldown := g.cooldown, initialCooldown := g.initialCooldown);
    }
  }

  // ---------------------------------------------------------- the change test

  function QuantityString(q: Option<string>): string {
    if q.None? then "" else q.value
  }

  predicate RulesChanged(a: Option<Rules>, b: Option<Rules>) {
    if a.None? || b.None? then a != b
    else
      || a.value.stabilization != b.value.stabilization
      || QuantityString(a.value.tolerance) != QuantityString(b.value.tolerance)
      || |a.value.policies| != |b.value.policies|
      || exists i | 0 <= i < |a.value.policies| :: a.value.policies[i] != b.value.policies[i]
  }

  predicate HpaConfigChanged(a: Option<HpaConfig>, b: Option<HpaConfig>) {
    if a.None? || b.None? then a != b
    else if a.value.behavior.None? != b.value.behavior.None? then true
    else if a.value.behavior.None? then false
    else
      || RulesChanged(a.value.behavior.value.up, b.value.behavior.value.up)
      || RulesChanged(a.value.behavior.value.down, b.value.behavior.value.down)
  }

  predicate AdvancedChanged(a: Option<Advanced>, b: Option<Advanced>) {
    if a.None? || b.None? then a != b
    else if a.value.modifiers != b.value.modifiers then true
    else HpaConfigChanged(a.value.hpa, b.value.hpa)
  }

  predicate SpecChanged(a: Spec, b: Spec) {
    || a.min != b.min || a.max != b.max || a.polling != b.polling || a.cooldown != b.cooldown
    || a.initialCooldown != b.initialCooldown || a.triggers != b.triggers
    || AdvancedChanged(a.advanced, b.advanced)
  }

  /** `a` with every managed field that differs taken from `b`. */
  function Reconciled(a: Spec, b: Spec): Spec {
    a.(min := b.min, max := b.max, polling := b.polling, cooldown := b.cooldown,
       initialCooldown := b.initialCooldown, triggers := b.triggers,
       advanced := if AdvancedChanged(a.advanced, b.advanced) then b.advanced else a.advanced)
  }

  // ---------------------------------------------- what the change test compares

  /** The part of a rule set the controller compares: the select policy is not in it. */
  datatype RulesView = RulesView(stabilization: Option<int>, tolerance: string, policies: seq<Policy>)

  datatype SpecView = SpecView(min: Option<int>, max: Option<int>, polling: Option<int>, cooldown: Option<int>,
                               initialCooldown: Option<int>, triggers: seq<Trigger>,
                               advanced: Option<(Modifiers, Option<Option<(Option<RulesView>, Option<RulesView>)>>)>)

  function ViewRules(r: Option<Rules>): Option<RulesView> {
    if r.None? then None
    else Some(RulesView(r.value.stabilization, QuantityString(r.value.tolerance), r.value.policies))
  }

  function ViewHpa(h: HpaConfig): Option<(Option<RulesView>, Option<RulesView>)> {
    if h.behavior.None? then None
    else Some((ViewRules(h.behavior.value.up), ViewRules(h.behavior.value.down)))
  }

  function ViewAdvanced(a: Advanced): (Modifiers, Option<Option<(Option<RulesView>, Option<RulesView>)>>) {
    (a.modifiers, if a.hpa.None? then None else Some(ViewHpa(a.hpa.value)))
  }

  /** The managed projection of a spec. */
  function View(s: Spec): SpecView {
    SpecView(s.min, s.max, s.polling, s.cooldown, s.initialCooldown, s.triggers,
             if s.advanced.None? then None else Some(ViewAdvanced(s.advanced.value)))
  }

  lemma RulesChangedIff(a: Option<Rules>, b: Option<Rules>)
    ensures RulesChanged(a, b) <==> ViewRules(a) != ViewRules(b)
  {
    if a.Some? && b.Some? && |a.value.policies| == |b.value.policies|
       && forall i | 0 <= i < |a.value.policies| :: a.value.policies[i] == b.value.policies[i] {
      assert a.value.policies == b.value.policies;
    }
  }

  predicate SameRules(a: Option<Rules>, b: Option<Rules>) {
    && (a.Some? <==> b.Some?)
    && (a.Some? ==>
          && a.value.stabilization == b.value.stabilization && a.value.policies == b.value.policies
          && (a.value.tolerance == b.value.tolerance
              || (a.value.tolerance in {None, Some("")} && b.value.tolerance in {None, Some("")})))
  }

  predicate SameBehavior(a: Option<Behavior>, b: Option<Behavior>) {
    && (a.Some? <==> b.Some?)
    && (a.Some? ==> SameRules(a.value.up, b.value.up) && SameRules(a.value.down, b.value.down))
  }

  predicate SameAdvanced(a: Option<Advanced>, b: Option<Advanced>) {
    && (a.Some? <==> b.Some?)
    && (a.Some? ==> a.value.modifiers == b.value.modifiers && (a.value.hpa.Some? <==> b.value.hpa.Some?))
    && (a.Some? && a.value.hpa.Some? && b.value.hpa.Some? ==>
          SameBehavior(a.value.hpa.value.behavior, b.value.hpa.value.behavior))
  }

  /** Field by field, what it takes for an object to count as up to date: everything but the select
      policy, the HPA's name and whether the replica count is restored. */
  lemma UnchangedExactlyWhen(a: Spec, b: Spec)
    ensures !SpecChanged(a, b) <==>
              && a.min == b.min && a.max == b.max && a.polling == b.polling
              && a.cooldown == b.cooldown && a.initialCooldown == b.initialCooldown && a.triggers == b.triggers
              && SameAdvanced(a.advanced, b.advanced)
  {
    forall p: Option<Rules>, q: Option<Rules> ensures RulesChanged(p, q) <==> !SameRules(p, q) {
      RulesChangedIff(p, q);
    }
  }

  /** The change test is equality of managed projections, hence an equivalence. */
  lemma SpecChangedIff(a: Spec, b: Spec)
    ensures SpecChanged(a, b) <==> View(a) != View(b)
  {
    if a.advanced.Some? && b.advanced.Some? && a.advanced.value.hpa.Some? && b.advanced.value.hpa.Some? {
      var (x, y) := (a.advanced.value.hpa.value, b.advanced.value.hpa.value);
      if x.behavior.Some? && y.behavior.Some? {
        RulesChangedIff(x.behavior.value.up, y.behavior.value.up);
        RulesChangedIff(x.behavior.value.down, y.behavior.value.down);
      }
    }
  }

  /** Reconciling reaches the desired projection, keeps every unmanaged field, and is a fixpoint:
      a second pass finds nothing to change. */
  lemma ReconciledIsFixpoint(a: Spec, b: Spec)
    ensures View(Reconciled(a, b)) == View(b) && !SpecChanged(Reconciled(a, b), b)
    ensures Reconciled(a, b).target == a.target && Reconciled(a, b).rest == a.rest
    ensures !SpecChanged(a, b) ==> Reconciled(a, b) == a
    ensures Reconciled(Reconciled(a, b), b) == Reconciled(a, b)
  {
    SpecChangedIff(a, b);
    SpecChangedIff(Reconciled(a, b), b);
    if !AdvancedChanged(a.advanced, b.advanced) {
      var a' := b.(advanced := a.advanced);
      SpecChangedIff(a', b);
    } else {
      SpecChangedIff(b, b);
    }
  }

  function WithSelectPolicy(s: Spec, p: Option<string>): Spec
    requires s.advanced.Some? && s.advanced.value.hpa.Some? && s.advanced.value.hpa.value.behavior.Some?
    requires s.advanced.value.hpa.value.behavior.value.up.Some?
  {
    var adv := s.advanced.value;
    var hpa := adv.hpa.value;
    var behavior := hpa.behavior.value;
    var up := behavior.up.value.(selectPolicy := p);
    s.(advanced := Some(adv.(hpa := Some(hpa.(behavior := Some(behavior.(up := Some(up))))))))
  }

  /** A drifted select policy alone is therefore never noticed nor repaired, for any desired
      spec. */
  lemma SelectPolicyDriftIsInvisible(s: Spec, p: Option<string>)
    requires s.advanced.Some? && s.advanced.value.hpa.Some? && s.advanced.value.hpa.value.behavior.Some?
    requires s.advanced.value.hpa.value.behavior.value.up.Some?
    ensures !SpecChanged(WithSelectPolicy(s, p), s)
    ensures Reconciled(WithSelectPolicy(s, p), s) == WithSelectPolicy(s, p)
  {
    SpecChangedIff(WithSelectPolicy(s, p), s);
    ReconciledIsFixpoint(WithSelectPolicy(s, p), s);
  }
}
