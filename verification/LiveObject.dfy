/** The object in the API server governs scaling: once the controller has converged, what KEDA
    computes from the stored ScaledObject is the decision of the annotations. */
module LiveObject {
  import opened Core
  import opened ExprLang
  import opened Provisioner
  import opened Decision
  import opened Triggers
  import opened ScaledObjects
  import R = Reconciler
  import E = EndToEnd

  /** The formula and triggers stored in a converged namespace are the ones the annotations ask
      for, and KEDA's number over any values of those triggers is the policy's decision. */
  lemma StoredFormulaDecides(s: R.Store, uid: string, name: string, metrics: seq<Metric>, g: Globals, site: Site,
                             minReplicas: int, maxReplicas: int, values: seq<real>)
    requires name in R.ManagedNames(s, uid)
    requires R.Converged(s, uid, DesiredSpec(metrics, g, site, minReplicas, maxReplicas))
    requires Accepted(metrics, minReplicas == 0)
    requires !Uncompilable(metrics, minReplicas, maxReplicas)
    requires |values| == |TriggersOf(metrics, site, minReplicas)|
    ensures var spec := s[name].spec;
            && spec.triggers == TriggersOf(metrics, site, minReplicas)
            && spec.min == Some(minReplicas) && spec.max == Some(maxReplicas)
            && spec.advanced.Some?
            && Evaluate(spec.advanced.value.modifiers.formula, E.Bind(spec.triggers, values))
               == Some(Decide(metrics, minReplicas, maxReplicas, values[..|metrics|],
                              E.GateOf(metrics, values), E.CountOf(metrics, values)))
  {
    var desired := DesiredSpec(metrics, g, site, minReplicas, maxReplicas);
    R.MatchesWhenConverged(s, name, uid, desired);
    SpecChangedIff(s[name].spec, desired);
    E.KedaComputesDecision(metrics, site, minReplicas, maxReplicas, values);
  }
}
