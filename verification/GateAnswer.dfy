/** The context update of an answered gate as the machine's closure makes it,
    on the ordered lists it keeps. */
module GateAnswer {
  import opened Ir
  import opened Graph
  import opened Compile
  import opened Machine

  /** Picked targets not yet listed are appended to the authorized list; if all
      picked targets are known, the other targets of the gate that are not yet
      listed are appended to the skipped list. As sets, the lists become what
      the machine's step gives them. */
  method ApplyGateAnswered(net: Net, ctx: Context, authorized: seq<string>, skipped: seq<string>, gate: string, targets: seq<string>)
    returns (authorized': seq<string>, skipped': seq<string>)
    requires Elems(authorized) == ctx.authorized && Elems(skipped) == ctx.skipped
    ensures Elems(authorized') == AnswerContext(net, ctx, gate, targets).authorized
    ensures Elems(skipped') == AnswerContext(net, ctx, gate, targets).skipped
    ensures authorized <= authorized' && skipped <= skipped'
    ensures Distinct(authorized) ==> Distinct(authorized')
    ensures Distinct(skipped) && Distinct(Siblings(net, gate)) ==> Distinct(skipped')
  {
    authorized' := authorized;
    for k := 0 to |targets|
      invariant authorized <= authorized' && (Distinct(authorized) ==> Distinct(authorized'))
      invariant forall x :: x in authorized' <==> x in authorized || x in targets[..k]
    {
      assert targets[..k + 1] == targets[..k] + [targets[k]];
      authorized' := Add(authorized', targets[k]);
    }
    assert targets[..|targets|] == targets;
    var siblings := Siblings(net, gate);
    skipped' := skipped;
    if KnownTargets(net, gate, targets) {
      for k := 0 to |siblings|
        invariant skipped <= skipped' && (Distinct(skipped) && Distinct(siblings) ==> Distinct(skipped'))
        invariant forall x :: x in skipped' <==> x in skipped || (x in siblings[..k] && x !in targets)
      {
        assert siblings[..k + 1] == siblings[..k] + [siblings[k]];
        if siblings[k] !in targets && siblings[k] !in skipped { skipped' := skipped' + [siblings[k]]; }
      }
      assert siblings[..|siblings|] == siblings;
    }
  }
}
