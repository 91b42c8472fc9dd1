/**
 * `PolicyProfileAssignable` (cfme/common/__init__.py): the set of policy profile names an
 * object remembers as assigned, and the checks and unchecks it makes in the
 * "Manage Policies" tree.
 */
module Policy {
  import opened Wrappers
  import opened Seqs

  /** One click in the "Manage Policies" tree. */
  datatype TreeAction = CheckNode(name: string) | UncheckNode(name: string)

  /** One call: `assign_policy_profiles(*names)` or `unassign_policy_profiles(*names)`. */
  datatype Change = Assign(names: seq<string>) | Unassign(names: seq<string>)

  /** The assigned set after one call: the names are added, or those present removed. */
  function Apply(s: set<string>, c: Change): set<string>
  {
    match c
    case Assign(ns) => s + Names(ns)
    case Unassign(ns) => s - Names(ns)
  }

  /** The assigned set after a sequence of calls, oldest first. */
  function Replay(s: set<string>, cs: seq<Change>): set<string>
  {
    if |cs| == 0 then s else Apply(Replay(s, cs[..|cs| - 1]), cs[|cs| - 1])
  }

  /** The last call that names `n`, if any. */
  function LastMention(cs: seq<Change>, n: string): (r: Option<nat>)
    ensures r.Some? ==> r.value < |cs| && n in cs[r.value].names
                        && forall j :: r.value < j < |cs| ==> n !in cs[j].names
    ensures r.None? ==> forall j :: 0 <= j < |cs| ==> n !in cs[j].names
  {
    if |cs| == 0 then None
    else if n in cs[|cs| - 1].names then Some(|cs| - 1)
    else
      var r := LastMention(cs[..|cs| - 1], n);
      assert forall j :: 0 <= j < |cs| - 1 ==> cs[..|cs| - 1][j] == cs[j];
      r
  }

  /** A name is assigned after a run of calls exactly when the last call naming it was an
      assignment, or, when no call names it, when it was assigned before. */
  lemma {:induction false} LastMentionDecides(s: set<string>, cs: seq<Change>, n: string)
    ensures n in Replay(s, cs) <==>
            match LastMention(cs, n)
            case None => n in s
            case Some(i) => cs[i].Assign?
  {
    if |cs| > 0 {
      var init := cs[..|cs| - 1];
      LastMentionDecides(s, init, n);
      if n !in cs[|cs| - 1].names {
        assert LastMention(cs, n) == LastMention(init, n);
        match LastMention(init, n)
        case None =>
        case Some(i) => assert init[i] == cs[i];
      }
    }
  }

  /** Assigning names and then unassigning the same names leaves none of them assigned,
      and touches no other name. */
  lemma AssignThenUnassign(s: set<string>, ns: seq<string>)
    ensures Replay(s, [Assign(ns), Unassign(ns)]) == s - Names(ns)
  {
    var cs := [Assign(ns), Unassign(ns)];
    assert cs[..1] == [Assign(ns)] && cs[..1][..0] == [];
    assert Replay(s, cs[..1]) == s + Names(ns);
    assert Replay(s, cs) == (s + Names(ns)) - Names(ns);
  }

  /** The tree clicks of one call: a check per name to assign, an uncheck per name to
      unassign, in argument order. */
  function Clicks(assign: bool, ns: seq<string>): (r: seq<TreeAction>)
    ensures |r| == |ns|
    ensures forall i :: 0 <= i < |ns| ==> r[i] == if assign then CheckNode(ns[i]) else UncheckNode(ns[i])
  {
    seq(|ns|, i requires 0 <= i < |ns| => if assign then CheckNode(ns[i]) else UncheckNode(ns[i]))
  }

  class PolicyProfileAssignable {
    /** `assigned_policy_profiles`. */
    var profiles: set<string>
    /** The clicks made in the "Manage Policies" tree so far. */
    var clicks: seq<TreeAction>

    /** The set starts empty (the property creates it on first use). */
    constructor()
      ensures profiles == {} && clicks == []
    {
      profiles := {};
      clicks := [];
    }

    /** `assign_policy_profiles(*names)`. */
    method AssignPolicyProfiles(names: seq<string>)
      modifies this
      ensures profiles == Apply(old(profiles), Assign(names))
      ensures clicks == old(clicks) + Clicks(true, names)
    {
      var i := 0;
      while i < |names|
        invariant 0 <= i <= |names|
        invariant profiles == old(profiles) + Names(names[..i])
        invariant clicks == old(clicks)
      {
        assert names[..i + 1] == names[..i] + [names[i]];
        profiles := profiles + {names[i]};
        i := i + 1;
      }
      assert names[..i] == names;
      AssignUnassign(true, names);
    }

    /** `unassign_policy_profiles(*names)`: names that are not assigned are skipped. */
    method UnassignPolicyProfiles(names: seq<string>)
      modifies this
      ensures profiles == Apply(old(profiles), Unassign(names))
      ensures clicks == old(clicks) + Clicks(false, names)
    {
      var i := 0;
      while i < |names|
        invariant 0 <= i <= |names|
        invariant profiles == old(profiles) - Names(names[..i])
        invariant clicks == old(clicks)
      {
        assert names[..i + 1] == names[..i] + [names[i]];
        if names[i] in profiles {
          profiles := profiles - {names[i]};
        }
        i := i + 1;
      }
      assert names[..i] == names;
      AssignUnassign(false, names);
    }

    /** `_assign_unassign_policy_profiles(assign, *names)`: one click per name. */
    method AssignUnassign(assign: bool, names: seq<string>)
      modifies this`clicks
      ensures clicks == old(clicks) + Clicks(assign, names)
    {
      var i := 0;
      while i < |names|
        invariant 0 <= i <= |names|
        invariant clicks == old(clicks) + Clicks(assign, names[..i])
      {
        clicks := clicks + [if assign then CheckNode(names[i]) else UncheckNode(names[i])];
        i := i + 1;
        assert Clicks(assign, names[..i]) == Clicks(assign, names[..i - 1]) + [clicks[|clicks| - 1]];
      }
      assert names[..i] == names;
    }
  }
}
