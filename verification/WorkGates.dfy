/** Merging a repository's work gates into the generated ones
    (crates/jig-bootstrap/src/runtime_config.rs). */
module WorkGates {
  import opened Wrappers

  /** A gate as written: the fields that merging reads or edits, and everything else. */
  datatype Gate = Gate(id: Option<string>, kind: Option<string>, tool: Option<string>,
                       required: Option<string>, reuse: Option<string>, rest: string)

  /** A gate as understood, with its requirement normalised. */
  datatype WorkGate =
    | Check(tool: string, body: string)
    | Evidence(body: string)
    | CodexReview(body: string)
    | Unsupported(body: string)

  /** Schema validation and the contract's tools are parameters. */
  datatype Config = Config(normalize: Gate -> Option<WorkGate>, supportsCheck: string -> bool, retired: Gate -> bool)

  /** Only a gate with an id is valid. */
  ghost predicate NamesGates(cfg: Config) {
    forall g :: cfg.normalize(g).Some? ==> g.id.Some?
  }

  const CHECK := Some("check")

  /** A generated gate whose earlier id an existing gate still uses. */
  predicate Alias(generated: Gate, e: Gate) {
    || (generated.id == Some("jig-contract") && generated.tool == Some("jig.contract_check")
        && e.id == Some("contract") && e.tool == Some("jig.contract_check"))
    || (generated.id == Some("rust-tests") && generated.tool == Some("jig.test")
        && e.id == Some("tests") && e.tool == Some("jig.test"))
  }

  predicate Matches(generated: Gate, e: Gate) {
    generated.id == e.id || Alias(generated, e)
  }

  /** The index of the first gate that an existing gate speaks for; the length if none. */
  function FirstMatch(gates: seq<Gate>, e: Gate): (i: nat)
    ensures i <= |gates| && (i < |gates| ==> Matches(gates[i], e)) && forall j | 0 <= j < i :: !Matches(gates[j], e)
  {
    if gates == [] || Matches(gates[0], e) then 0 else 1 + FirstMatch(gates[1..], e)
  }

  /** An existing gate with the very identity of a generated check. */
  predicate SameIdentity(generated: Gate, candidate: Gate) {
    candidate.id == generated.id && candidate.kind == CHECK && candidate.tool == generated.tool
  }

  predicate YieldsToExact(existing: seq<Gate>, generated: Gate, e: Gate) {
    generated.kind == CHECK && generated.id != e.id && exists c | c in existing :: SameIdentity(generated, c)
  }

  /** What an existing gate does to the generated gate it matches; none when they contradict. */
  function Edited(cfg: Config, existing: seq<Gate>, generated: Gate, e: Gate): Option<Gate> {
    var isCheck := generated.kind == CHECK;
    if YieldsToExact(existing, generated, e) then Some(generated)
    else if isCheck && (e.kind != CHECK || e.tool != generated.tool) then None
    else if isCheck || cfg.normalize(generated) == cfg.normalize(e) then
      Some(generated.(required := if e.required.Some? then e.required else generated.required,
                      reuse := if isCheck && e.reuse.Some? then e.reuse else generated.reuse))
    else Some(generated)
  }

  /** A valid existing gate speaks for a check, but as another kind or with another tool. */
  predicate Contradicts(cfg: Config, existing: seq<Gate>, g: Gate, e: Gate) {
    && cfg.normalize(e).Some? && Matches(g, e) && g.kind == CHECK && !YieldsToExact(existing, g, e)
    && (e.kind != CHECK || e.tool != g.tool)
  }

  predicate SameShape(a: Gate, b: Gate) {
    a.id == b.id && a.kind == b.kind && a.tool == b.tool && a.rest == b.rest
  }

  ghost predicate DistinctIds(gates: seq<Gate>) {
    forall i, j | 0 <= i < j < |gates| && gates[i].id.Some? :: gates[i].id != gates[j].id
  }

  predicate Keep(cfg: Config, gate: WorkGate) {
    match gate
    case Check(tool, _) => cfg.supportsCheck(tool)
    case Evidence(_) => true
    case CodexReview(_) => true
    case Unsupported(_) => false
  }

  lemma MatchIgnoresPolicy(a: seq<Gate>, b: seq<Gate>, e: Gate)
    requires |a| == |b| && forall i | 0 <= i < |a| :: SameShape(a[i], b[i])
    ensures FirstMatch(b, e) == FirstMatch(a, e)
  {
    var i, j := FirstMatch(a, e), FirstMatch(b, e);
    if i < |a| { assert Matches(b[i], e); }
    if j < |a| { assert Matches(a[j], e); }
  }

  lemma MatchInFront(a: seq<Gate>, b: seq<Gate>, e: Gate)
    ensures FirstMatch(a, e) < |a| ==> FirstMatch(a + b, e) == FirstMatch(a, e)
    ensures FirstMatch(a, e) == |a| ==> FirstMatch(a + b, e) >= |a|
  {
    var i, j := FirstMatch(a, e), FirstMatch(a + b, e);
    if i < |a| { assert Matches((a + b)[i], e); }
    if j < |a| { assert Matches(a[j], e); }
  }

  // ---- the project's own gates ----

  /** A valid gate that is not retired: evidence, a review, or a check whose tool the contract has. */
  predicate Kept(cfg: Config, e: Gate) {
    && cfg.normalize(e).Some? && !cfg.retired(e)
    && var gate := cfg.normalize(e).value;
    gate.Evidence? || gate.CodexReview? || (gate.Check? && cfg.supportsCheck(gate.tool))
  }

  /** An existing gate that nothing so far covers, and that is kept. */
  predicate Adds(cfg: Config, covered: seq<Gate>, e: Gate) {
    Kept(cfg, e) && FirstMatch(covered, e) == |covered|
  }

  /** The gates that are added after the generated ones. */
  function Additions(cfg: Config, rendered: seq<Gate>, entries: seq<Gate>): seq<Gate> {
    if entries == [] then []
    else
      var before, e := Additions(cfg, rendered, entries[..|entries| - 1]), entries[|entries| - 1];
      if Adds(cfg, rendered + before, e) then before + [e] else before
  }

  lemma AdditionsStep(cfg: Config, rendered: seq<Gate>, entries: seq<Gate>, e: Gate)
    ensures var before := Additions(cfg, rendered, entries);
            Additions(cfg, rendered, entries + [e]) == if Adds(cfg, rendered + before, e) then before + [e] else before
  {
    assert (entries + [e])[..|entries|] == entries;
  }

  /** How the gate at index `i`, generated or added, ends up after the existing gates given: as the
      gates that matched it first have left it since it is there. */
  function Evolved(cfg: Config, rendered: seq<Gate>, i: nat, existing: seq<Gate>, entries: seq<Gate>): Option<Gate>
    requires i < |rendered| + |Additions(cfg, rendered, entries)|
  {
    if entries == [] then Some(rendered[i])
    else
      var front, e := entries[..|entries| - 1], entries[|entries| - 1];
      var all := rendered + Additions(cfg, rendered, front);
      if i >= |all| then Some(e)
      else
        var before := Evolved(cfg, rendered, i, existing, front);
        if before.None? || cfg.normalize(e).None? || FirstMatch(all, e) != i then before
        else Edited(cfg, existing, before.value, e)
  }

  lemma EvolvedStep(cfg: Config, rendered: seq<Gate>, i: nat, existing: seq<Gate>, entries: seq<Gate>, e: Gate)
    requires i < |rendered| + |Additions(cfg, rendered, entries)|
    ensures i < |rendered| + |Additions(cfg, rendered, entries + [e])|
    ensures var before := Evolved(cfg, rendered, i, existing, entries);
            Evolved(cfg, rendered, i, existing, entries + [e]) ==
            if before.None? || cfg.normalize(e).None?
               || FirstMatch(rendered + Additions(cfg, rendered, entries), e) != i then before
            else Edited(cfg, existing, before.value, e)
  {
    AdditionsStep(cfg, rendered, entries, e);
    assert (entries + [e])[..|entries|] == entries;
  }

  lemma EvolvedNew(cfg: Config, rendered: seq<Gate>, existing: seq<Gate>, entries: seq<Gate>, e: Gate)
    requires Adds(cfg, rendered + Additions(cfg, rendered, entries), e)
    ensures var i := |rendered| + |Additions(cfg, rendered, entries)|;
            && |Additions(cfg, rendered, entries + [e])| == i + 1 - |rendered|
            && Evolved(cfg, rendered, i, existing, entries + [e]) == Some(e)
  {
    AdditionsStep(cfg, rendered, entries, e);
    assert (entries + [e])[..|entries|] == entries;
  }

  /** They are existing gates, in the order of the existing list. */
  lemma {:induction false} AdditionsKeepOrder(cfg: Config, rendered: seq<Gate>, entries: seq<Gate>)
    returns (at: seq<nat>)
    ensures |at| == |Additions(cfg, rendered, entries)|
    ensures forall j | 0 <= j < |at| :: at[j] < |entries| && Additions(cfg, rendered, entries)[j] == entries[at[j]]
    ensures forall i, j | 0 <= i < j < |at| :: at[i] < at[j]
  {
    at := [];
    if entries != [] {
      var front := entries[..|entries| - 1];
      at := AdditionsKeepOrder(cfg, rendered, front);
      if Adds(cfg, rendered + Additions(cfg, rendered, front), entries[|entries| - 1]) {
        at := at + [|entries| - 1];
      }
    }
  }

  lemma {:induction false} IsCovered(cfg: Config, rendered: seq<Gate>, entries: seq<Gate>, e: Gate)
    requires e in entries && Kept(cfg, e)
    ensures exists g | g in rendered + Additions(cfg, rendered, entries) :: Matches(g, e)
  {
    var front, last := entries[..|entries| - 1], entries[|entries| - 1];
    var before, after := Additions(cfg, rendered, front), Additions(cfg, rendered, entries);
    assert forall g | g in rendered + before :: g in rendered + after;
    if e == last {
      var i := FirstMatch(rendered + before, e);
      if i < |rendered + before| { assert (rendered + before)[i] in rendered + after; }
      else { assert e in rendered + after && Matches(e, e); }
    } else {
      assert entries == front + [last];
      IsCovered(cfg, rendered, front, e);
    }
  }

  // ---- the merge ----

  /** What holds of the gates after the existing gates `entries`: the generated ones come first,
      each as its own matches left it, then the additions; policies apart, nothing else changes. */
  ghost predicate Merging(cfg: Config, rendered: seq<Gate>, existing: seq<Gate>, entries: seq<Gate>, gates: seq<Gate>) {
    var all := rendered + Additions(cfg, rendered, entries);
    && |gates| == |all| && (forall i | 0 <= i < |all| :: SameShape(all[i], gates[i]))
    && (forall i | 0 <= i < |all| :: Some(gates[i]) == Evolved(cfg, rendered, i, existing, entries))
    && (DistinctIds(rendered) ==> DistinctIds(gates))
  }

  /** The existing gate at `k` contradicts the gate it matches first. */
  ghost predicate Refused(cfg: Config, rendered: seq<Gate>, existing: seq<Gate>, k: nat)
    requires k < |existing|
  {
    var all := rendered + Additions(cfg, rendered, existing[..k]);
    var i := FirstMatch(all, existing[k]);
    i < |all| && Contradicts(cfg, existing, all[i], existing[k])
  }

  /** The gate merge of `reconcile_legacy_check_policy`. It fails exactly when an existing gate
      contradicts the check it matches first; otherwise see `Merging`. */
  method MergeGates(cfg: Config, rendered: seq<Gate>, existing: seq<Gate>) returns (r: Option<seq<Gate>>)
    requires NamesGates(cfg)
    ensures r.Some? ==> Merging(cfg, rendered, existing, existing, r.value)
    ensures r.None? <==> exists k: nat | k < |existing| :: Refused(cfg, rendered, existing, k)
  {
    var gates := rendered;
    var k := 0;
    MergingStarts(cfg, rendered, existing);
    assert existing[..0] == [];
    while k < |existing|
      invariant 0 <= k <= |existing| && Merging(cfg, rendered, existing, existing[..k], gates)
      invariant forall j: nat | j < k :: !Refused(cfg, rendered, existing, j)
    {
      var next := MergeOne(cfg, rendered, gates, existing, k);
      if next.None? { return None; }
      gates := next.value;
      k := k + 1;
    }
    assert existing[..k] == existing;
    r := Some(gates);
  }

  /** Conservation: every valid existing gate that is neither retired nor unsupported is in the
      result, itself or through the gate that it matches. */
  lemma NothingOwnedIsLost(cfg: Config, rendered: seq<Gate>, existing: seq<Gate>, gates: seq<Gate>, e: Gate)
    requires Merging(cfg, rendered, existing, existing, gates)
    requires e in existing && Kept(cfg, e)
    ensures exists g | g in gates :: Matches(g, e)
  {
    IsCovered(cfg, rendered, existing, e);
    var all := rendered + Additions(cfg, rendered, existing);
    var g :| g in all && Matches(g, e);
    var i :| 0 <= i < |all| && all[i] == g;
    assert gates[i] in gates && Matches(gates[i], e);
  }

  /** No generated gate speaks for the existing gate at `k`, and no other existing one shares its
      identity with it either way. */
  ghost predicate StandsAlone(rendered: seq<Gate>, existing: seq<Gate>, k: nat)
    requires k < |existing|
  {
    && (forall g | g in rendered :: !Matches(g, existing[k]))
    && forall j | 0 <= j < |existing| && j != k ::
         !Matches(existing[j], existing[k]) && !Matches(existing[k], existing[j])
  }

  /** Such a gate is added when its turn comes. */
  lemma IsAdded(cfg: Config, rendered: seq<Gate>, existing: seq<Gate>, k: nat)
    requires k < |existing| && StandsAlone(rendered, existing, k)
    requires Kept(cfg, existing[k])
    ensures Adds(cfg, rendered + Additions(cfg, rendered, existing[..k]), existing[k])
  {
    var added := Additions(cfg, rendered, existing[..k]);
    var at := AdditionsKeepOrder(cfg, rendered, existing[..k]);
    forall g | g in rendered + added ensures !Matches(g, existing[k]) {
      if g in added {
        var j :| 0 <= j < |added| && added[j] == g;
        assert g == existing[at[j]];
      }
    }
  }

  lemma {:induction false} StaysAsAdded(cfg: Config, rendered: seq<Gate>, existing: seq<Gate>, k: nat, n: nat)
    requires k < n <= |existing| && StandsAlone(rendered, existing, k)
    requires Adds(cfg, rendered + Additions(cfg, rendered, existing[..k]), existing[k])
    ensures var i := |rendered| + |Additions(cfg, rendered, existing[..k])|;
            && i < |rendered| + |Additions(cfg, rendered, existing[..n])|
            && (rendered + Additions(cfg, rendered, existing[..n]))[i] == existing[k]
            && Evolved(cfg, rendered, i, existing, existing[..n]) == Some(existing[k])
  {
    var front, last := existing[..n - 1], existing[n - 1];
    assert existing[..n] == front + [last];
    if n == k + 1 {
      AdditionsStep(cfg, rendered, front, last);
      EvolvedNew(cfg, rendered, existing, front, last);
    } else {
      StaysAsAdded(cfg, rendered, existing, k, n - 1);
      StaysOneMore(cfg, rendered, existing, front, |rendered| + |Additions(cfg, rendered, existing[..k])|, last);
    }
  }

  lemma StaysOneMore(cfg: Config, rendered: seq<Gate>, existing: seq<Gate>, front: seq<Gate>, i: nat, last: Gate)
    requires i < |rendered| + |Additions(cfg, rendered, front)|
    requires !Matches((rendered + Additions(cfg, rendered, front))[i], last)
    ensures i < |rendered| + |Additions(cfg, rendered, front + [last])|
    ensures (rendered + Additions(cfg, rendered, front + [last]))[i] == (rendered + Additions(cfg, rendered, front))[i]
    ensures Evolved(cfg, rendered, i, existing, front + [last]) == Evolved(cfg, rendered, i, existing, front)
  {
    AdditionsStep(cfg, rendered, front, last);
    EvolvedStep(cfg, rendered, i, existing, front, last);
  }

  /** A project-owned gate that stands alone is in the result word for word. */
  lemma OwnGateIsKept(cfg: Config, rendered: seq<Gate>, existing: seq<Gate>, k: nat, gates: seq<Gate>)
    requires Merging(cfg, rendered, existing, existing, gates)
    requires k < |existing| && StandsAlone(rendered, existing, k)
    requires Kept(cfg, existing[k])
    ensures existing[k] in gates
  {
    IsAdded(cfg, rendered, existing, k);
    StaysAsAdded(cfg, rendered, existing, k, |existing|);
    assert existing[..|existing|] == existing;
    var i := |rendered| + |Additions(cfg, rendered, existing[..k])|;
    assert gates[i] == existing[k];
  }

  lemma MergingStarts(cfg: Config, rendered: seq<Gate>, existing: seq<Gate>)
    ensures Merging(cfg, rendered, existing, [], rendered)
  {
    assert rendered + [] == rendered;
  }

  /** One turn of the loop. */
  method MergeOne(cfg: Config, ghost rendered: seq<Gate>, gates: seq<Gate>, existing: seq<Gate>, k: nat)
    returns (r: Option<seq<Gate>>)
    requires NamesGates(cfg) && k < |existing| && Merging(cfg, rendered, existing, existing[..k], gates)
    ensures r.Some? ==> Merging(cfg, rendered, existing, existing[..k + 1], r.value)
    ensures r.None? <==> Refused(cfg, rendered, existing, k)
  {
    var e := existing[k];
    var gate := cfg.normalize(e);
    ghost var all := rendered + Additions(cfg, rendered, existing[..k]);
    assert existing[..k + 1] == existing[..k] + [e];
    if gate.None? {
      Passes(cfg, rendered, existing, existing[..k], e, gates);
      return Some(gates);
    }
    var i := FirstMatch(gates, e);
    MatchIgnoresPolicy(all, gates, e);
    if i < |gates| {
      var edited := EditGate(cfg, existing, gates[i], e, gate.value);
      if edited.None? {
        return None;
      }
      Edits(cfg, rendered, existing, existing[..k], e, gates, i, edited.value);
      return Some(gates[i := edited.value]);
    }
    if cfg.retired(e) || !Keep(cfg, gate.value) {
      Passes(cfg, rendered, existing, existing[..k], e, gates);
      return Some(gates);
    }
    Appends(cfg, rendered, existing, existing[..k], e, gates);
    r := Some(gates + [e]);
  }

  /** What an existing gate does to the one it matches: nothing when that is a check with another id
      and there is a gate of its exact identity; otherwise it gives it its own requirement, and to a
      check its own reuse, unless they mean different things. */
  method EditGate(cfg: Config, existing: seq<Gate>, generated: Gate, e: Gate, gate: WorkGate) returns (r: Option<Gate>)
    requires cfg.normalize(e) == Some(gate)
    ensures r == Edited(cfg, existing, generated, e)
  {
    var isCheck := generated.kind == CHECK;
    if isCheck && generated.id != e.id {
      if exists candidate | candidate in existing ::
           candidate.id == generated.id && candidate.kind == CHECK && candidate.tool == generated.tool {
        return Some(generated);
      }
    }
    if isCheck && (e.kind != CHECK || e.tool != generated.tool) { return None; }
    var edited := generated;
    if isCheck || cfg.normalize(generated) == Some(gate) {
      if e.required.Some? { edited := edited.(required := e.required); }
      if isCheck && e.reuse.Some? { edited := edited.(reuse := e.reuse); }
    }
    r := Some(edited);
  }

  /** The gate that refused was generated, or is itself an existing one. */
  lemma RefusedByWhom(cfg: Config, rendered: seq<Gate>, existing: seq<Gate>, k: nat)
    requires k < |existing| && Refused(cfg, rendered, existing, k)
    ensures exists g | g in rendered + existing :: Contradicts(cfg, existing, g, existing[k])
  {
    var added := Additions(cfg, rendered, existing[..k]);
    var i := FirstMatch(rendered + added, existing[k]);
    var g := (rendered + added)[i];
    if i >= |rendered| {
      var at := AdditionsKeepOrder(cfg, rendered, existing[..k]);
      assert g == existing[..k][at[i - |rendered|]];
    }
    assert g in rendered + existing;
  }

  /** A gate that is not valid, or that covers nothing and is not kept, leaves no trace. */
  lemma Passes(cfg: Config, rendered: seq<Gate>, existing: seq<Gate>, entries: seq<Gate>, e: Gate, gates: seq<Gate>)
    requires Merging(cfg, rendered, existing, entries, gates)
    requires !Adds(cfg, rendered + Additions(cfg, rendered, entries), e)
    requires cfg.normalize(e).None? || FirstMatch(gates, e) == |gates|
    ensures Merging(cfg, rendered, existing, entries + [e], gates)
  {
    var added := Additions(cfg, rendered, entries);
    AdditionsStep(cfg, rendered, entries, e);
    MatchIgnoresPolicy(rendered + added, gates, e);
    forall i | 0 <= i < |rendered + added|
      ensures Some(gates[i]) == Evolved(cfg, rendered, i, existing, entries + [e])
    {
      EvolvedStep(cfg, rendered, i, existing, entries, e);
    }
  }

  lemma EditsKeepShape(cfg: Config, existing: seq<Gate>, generated: Gate, e: Gate)
    requires Edited(cfg, existing, generated, e).Some?
    ensures SameShape(generated, Edited(cfg, existing, generated, e).value)
  {
  }

  lemma SameShapesSameIds(a: seq<Gate>, b: seq<Gate>)
    requires |a| == |b| && DistinctIds(a) && forall j | 0 <= j < |a| :: SameShape(a[j], b[j])
    ensures DistinctIds(b)
  {
  }

  /** An edit takes effect on the one gate it matches first. */
  lemma EditsOne(cfg: Config, rendered: seq<Gate>, existing: seq<Gate>, entries: seq<Gate>, e: Gate, gates: seq<Gate>,
                 i: nat, g: Gate, j: nat)
    requires Merging(cfg, rendered, existing, entries, gates) && cfg.normalize(e).Some?
    requires i == FirstMatch(gates, e) < |gates| && Edited(cfg, existing, gates[i], e) == Some(g)
    requires j < |gates| <= |rendered| + |Additions(cfg, rendered, entries + [e])|
    ensures Some(gates[i := g][j]) == Evolved(cfg, rendered, j, existing, entries + [e])
  {
    var added := Additions(cfg, rendered, entries);
    MatchIgnoresPolicy(rendered + added, gates, e);
    EvolvedStep(cfg, rendered, j, existing, entries, e);
    assert Some(gates[j]) == Evolved(cfg, rendered, j, existing, entries);
  }

  lemma Edits(cfg: Config, rendered: seq<Gate>, existing: seq<Gate>, entries: seq<Gate>, e: Gate, gates: seq<Gate>,
              i: nat, g: Gate)
    requires Merging(cfg, rendered, existing, entries, gates) && cfg.normalize(e).Some?
    requires i == FirstMatch(gates, e) < |gates| && Edited(cfg, existing, gates[i], e) == Some(g)
    ensures Merging(cfg, rendered, existing, entries + [e], gates[i := g])
  {
    var gates', all := gates[i := g], rendered + Additions(cfg, rendered, entries);
    MatchIgnoresPolicy(all, gates, e);
    AdditionsStep(cfg, rendered, entries, e);
    EditsKeepShape(cfg, existing, gates[i], e);
    forall j | 0 <= j < |gates| ensures SameShape(gates[j], gates'[j]) {
    }
    if DistinctIds(rendered) { SameShapesSameIds(gates, gates'); }
    forall j | 0 <= j < |all| ensures Some(gates'[j]) == Evolved(cfg, rendered, j, existing, entries + [e]) {
      EditsOne(cfg, rendered, existing, entries, e, gates, i, g, j);
    }
  }

  lemma Appends(cfg: Config, rendered: seq<Gate>, existing: seq<Gate>, entries: seq<Gate>, e: Gate, gates: seq<Gate>)
    requires NamesGates(cfg) && Merging(cfg, rendered, existing, entries, gates)
    requires Adds(cfg, rendered + Additions(cfg, rendered, entries), e)
    ensures Merging(cfg, rendered, existing, entries + [e], gates + [e])
  {
    var added := Additions(cfg, rendered, entries);
    AdditionsStep(cfg, rendered, entries, e);
    MatchIgnoresPolicy(rendered + added, gates, e);
    assert rendered + (added + [e]) == (rendered + added) + [e];
    forall i | 0 <= i < |rendered + added|
      ensures Some((gates + [e])[i]) == Evolved(cfg, rendered, i, existing, entries + [e])
    {
      EvolvedStep(cfg, rendered, i, existing, entries, e);
    }
    EvolvedNew(cfg, rendered, existing, entries, e);
    if DistinctIds(rendered) { NewIdIsDistinct(gates, e); }
  }

  lemma NewIdIsDistinct(gates: seq<Gate>, e: Gate)
    requires DistinctIds(gates) && FirstMatch(gates, e) == |gates|
    ensures DistinctIds(gates + [e])
  {
    forall i | 0 <= i < |gates| ensures gates[i].id != e.id {
      assert !Matches(gates[i], e);
    }
  }

  // ---- who decides ----

  /** The existing gates that decide the policy of the generated gate at `i`: those that match it
      first, and among them only those with its exact id once there is one of its identity. */
  predicate Decides(cfg: Config, rendered: seq<Gate>, i: nat, existing: seq<Gate>, e: Gate)
    requires i < |rendered|
  {
    cfg.normalize(e).Some? && FirstMatch(rendered, e) == i && !YieldsToExact(existing, rendered[i], e)
  }

  /** The last value that a deciding gate states, or the generated one. */
  function LastRequired(cfg: Config, rendered: seq<Gate>, i: nat, existing: seq<Gate>,
                        entries: seq<Gate>): Option<string>
    requires i < |rendered|
  {
    if entries == [] then rendered[i].required
    else
      var e := entries[|entries| - 1];
      if Decides(cfg, rendered, i, existing, e) && e.required.Some? then e.required
      else LastRequired(cfg, rendered, i, existing, entries[..|entries| - 1])
  }

  function LastReuse(cfg: Config, rendered: seq<Gate>, i: nat, existing: seq<Gate>, entries: seq<Gate>): Option<string>
    requires i < |rendered|
  {
    if entries == [] then rendered[i].reuse
    else
      var e := entries[|entries| - 1];
      if Decides(cfg, rendered, i, existing, e) && e.reuse.Some? then e.reuse
      else LastReuse(cfg, rendered, i, existing, entries[..|entries| - 1])
  }

  /** A generated check keeps its identity and takes its requirement and its reuse each from the
      last deciding gate that states one. All that decide agree with it on kind and tool, and an
      alias has no say once the repository has a gate of the exact identity, wherever that gate
      stands. */
  lemma {:induction false} PolicyHasOneOwner(cfg: Config, rendered: seq<Gate>, i: nat, existing: seq<Gate>,
                                             entries: seq<Gate>)
    requires i < |rendered| && rendered[i].kind == CHECK && Evolved(cfg, rendered, i, existing, entries).Some?
    ensures var g := Evolved(cfg, rendered, i, existing, entries).value;
            && SameShape(rendered[i], g)
            && g.required == LastRequired(cfg, rendered, i, existing, entries)
            && g.reuse == LastReuse(cfg, rendered, i, existing, entries)
    ensures forall e | e in entries && Decides(cfg, rendered, i, existing, e) ::
              && e.kind == CHECK && e.tool == rendered[i].tool
              && ((exists c | c in existing :: SameIdentity(rendered[i], c)) ==> e.id == rendered[i].id)
  {
    if entries != [] {
      var front, last := entries[..|entries| - 1], entries[|entries| - 1];
      assert entries == front + [last];
      EvolvedStep(cfg, rendered, i, existing, front, last);
      MatchInFront(rendered, Additions(cfg, rendered, front), last);
      PolicyHasOneOwner(cfg, rendered, i, existing, front);
    }
  }

  ghost predicate RequirementIsIgnored(cfg: Config) {
    forall g: Gate, e: Gate | cfg.normalize(g).Some? && cfg.normalize(e).Some? && e.required.Some? ::
      cfg.normalize(g.(required := e.required)) == cfg.normalize(g)
  }

  /** What becomes of a generated gate that is no check: its requirement is that of the last gate
      which matches it first, means the same and states one; nothing else changes, and it is never
      refused. What a gate means does not depend on which valid requirement it states. */
  lemma {:induction false} OtherPolicy(cfg: Config, rendered: seq<Gate>, i: nat, existing: seq<Gate>,
                                       entries: seq<Gate>)
    requires i < |rendered| && rendered[i].kind != CHECK
    requires RequirementIsIgnored(cfg)
    ensures Evolved(cfg, rendered, i, existing, entries) ==
            Some(rendered[i].(required := LastStated(cfg, rendered, i, entries)))
  {
    if entries != [] {
      var front, last := entries[..|entries| - 1], entries[|entries| - 1];
      assert entries == front + [last];
      EvolvedStep(cfg, rendered, i, existing, front, last);
      MatchInFront(rendered, Additions(cfg, rendered, front), last);
      OtherPolicy(cfg, rendered, i, existing, front);
      StatedMeansTheSame(cfg, rendered, i, front);
    }
  }

  lemma {:induction false} StatedMeansTheSame(cfg: Config, rendered: seq<Gate>, i: nat, entries: seq<Gate>)
    requires i < |rendered| && RequirementIsIgnored(cfg)
    ensures cfg.normalize(rendered[i].(required := LastStated(cfg, rendered, i, entries))) == cfg.normalize(rendered[i])
  {
    if entries == [] {
      assert rendered[i].(required := rendered[i].required) == rendered[i];
    } else {
      StatedMeansTheSame(cfg, rendered, i, entries[..|entries| - 1]);
    }
  }

  function LastStated(cfg: Config, rendered: seq<Gate>, i: nat, entries: seq<Gate>): Option<string>
    requires i < |rendered|
  {
    if entries == [] then rendered[i].required
    else
      var e := entries[|entries| - 1];
      if FirstMatch(rendered, e) == i && cfg.normalize(e).Some? && cfg.normalize(e) == cfg.normalize(rendered[i])
         && e.required.Some?
      then e.required
      else LastStated(cfg, rendered, i, entries[..|entries| - 1])
  }
}
