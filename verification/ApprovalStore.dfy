/** The per-workspace lists of learned rules, acp/src/approval_learning.rs:
    `record_in` appends, drops the oldest beyond 64, and writes the document only
    if it parses back to what was meant. */
module ApprovalStore {
  import opened Text
  import opened ApprovalLearning

  /** One accepted addition and the command it came from. */
  datatype Addition = Addition(workspace: string, rule: string, command: string)

  datatype Recorded = Learned(rule: string) | NothingNew | Refused

  /** The rules added to one workspace, oldest first. */
  function AddedTo(log: seq<Addition>, w: string): seq<string> {
    if log == [] then []
    else
      var n := |log| - 1;
      AddedTo(log[..n], w) + (if log[n].workspace == w then [log[n].rule] else [])
  }

  lemma AddedToAppend(log: seq<Addition>, a: Addition)
    ensures forall w :: AddedTo(log + [a], w) ==
              if w == a.workspace then AddedTo(log, w) + [a.rule] else AddedTo(log, w)
  {
    assert (log + [a])[..|log|] == log;
    assert forall w :: AddedTo(log, w) + [] == AddedTo(log, w);
  }

  /** The last 64 of a sequence. */
  function Window(s: seq<string>): seq<string> {
    if |s| <= MAX_RULES_PER_WORKSPACE then s else s[|s| - MAX_RULES_PER_WORKSPACE..]
  }

  predicate Distinct(s: seq<string>) { forall i, j :: 0 <= i < j < |s| ==> s[i] != s[j] }

  /** Pushing one and draining the overflow moves the window by one. */
  lemma WindowPush(s: seq<string>, x: string)
    ensures var pushed := Window(s) + [x];
            var overflow := if |pushed| > MAX_RULES_PER_WORKSPACE then |pushed| - MAX_RULES_PER_WORKSPACE else 0;
            pushed[overflow..] == Window(s + [x])
  {
  }

  lemma WindowStaysDistinct(s: seq<string>, x: string)
    requires Distinct(Window(s)) && x !in Window(s)
    ensures Distinct(Window(s + [x]))
  {
    var pushed := Window(s) + [x];
    assert Distinct(pushed);
    WindowPush(s, x);
  }

  /** A rule that is added came from its recorded command. */
  lemma {:induction false} AddedHasSource(log: seq<Addition>, w: string, rule: string) returns (i: nat)
    requires rule in AddedTo(log, w)
    ensures i < |log| && log[i].workspace == w && log[i].rule == rule
  {
    var n := |log| - 1;
    if log[n].workspace == w && log[n].rule == rule {
      i := n;
    } else {
      i := AddedHasSource(log[..n], w, rule);
    }
  }

  class Store {
    const simple: string -> bool
    var rules: map<string, seq<string>>
    ghost var log: seq<Addition>

    function Rules(w: string): seq<string>
      reads this
    {
      if w in rules then rules[w] else []
    }

    /** Over every run: each list is the last 64 accepted additions in order, has
        no duplicates, and holds rules that yield themselves. */
    ghost predicate Valid()
      reads this
    {
      && (forall w :: Rules(w) == Window(AddedTo(log, w)))
      && (forall w :: Distinct(Rules(w)))
      && (forall i :: 0 <= i < |log| ==>
            && LearnableRule(simple, log[i].command) == Some(log[i].rule)
            && LearnableRule(simple, log[i].rule) == Some(log[i].rule))
    }

    constructor (simple: string -> bool)
      ensures Valid() && log == [] && this.simple == simple
    {
      this.simple, rules, log := simple, map[], [];
    }

    /** Every stored rule passes the test `parse_store` applies to it. */
    lemma StoredRulesYieldThemselves(w: string, i: nat)
      requires Valid() && i < |Rules(w)|
      ensures LearnableRule(simple, Rules(w)[i]) == Some(Rules(w)[i])
    {
      var added := AddedTo(log, w);
      assert Rules(w)[i] in added;
      var j := AddedHasSource(log, w, Rules(w)[i]);
    }

    /** `record_in`. `aclRoundTrips`: the workspace path survives the document
        format. On refusal and on a known rule nothing is written. */
    method RecordIn(workspace: string, command: string, aclRoundTrips: bool) returns (r: Recorded)
      requires Valid()
      modifies this
      ensures Valid()
      ensures r == var rule := LearnableRule(simple, command);
                   if rule.None? || rule.value in old(Rules(workspace)) then NothingNew
                   else if aclRoundTrips && simple(rule.value) then Learned(rule.value) else Refused
      ensures r.Learned? ==> log == old(log) + [Addition(workspace, r.rule, command)]
      ensures r.Learned? ==> Rules(workspace) == Window(AddedTo(old(log), workspace) + [r.rule])
      ensures !r.Learned? ==> rules == old(rules) && log == old(log)
      ensures forall w :: w != workspace ==> Rules(w) == old(Rules(w))
    {
      hide LearnableRule, Window, Distinct, AddedTo;
      var rule := LearnableRule(simple, command);
      if rule.None? {
        return NothingNew;
      }
      if rule.value in Rules(workspace) {
        return NothingNew;
      }
      RuleIsFixpoint(simple, command);
      if !aclRoundTrips || LearnableRule(simple, rule.value) != rule {
        return Refused;
      }
      Push(workspace, rule.value, command);
      return Learned(rule.value);
    }

    /** The list update: push, then drain what exceeds the cap. */
    method Push(workspace: string, rule: string, command: string)
      requires Valid() && rule !in Rules(workspace)
      requires LearnableRule(simple, command) == Some(rule) && LearnableRule(simple, rule) == Some(rule)
      modifies this
      ensures Valid() && log == old(log) + [Addition(workspace, rule, command)]
      ensures Rules(workspace) == Window(AddedTo(old(log), workspace) + [rule])
      ensures forall w :: w != workspace ==> Rules(w) == old(Rules(w))
    {
      hide LearnableRule, Window, Distinct, AddedTo;
      ghost var added := AddedTo(log, workspace);
      assert Rules(workspace) == Window(added) && Distinct(Rules(workspace));
      var list := Rules(workspace) + [rule];
      var overflow := if |list| > MAX_RULES_PER_WORKSPACE then |list| - MAX_RULES_PER_WORKSPACE else 0;
      WindowPush(added, rule);
      WindowStaysDistinct(added, rule);
      AddedToAppend(log, Addition(workspace, rule, command));
      rules := rules[workspace := list[overflow..]];
      log := log + [Addition(workspace, rule, command)];
    }

    /** `is_previously_approved`: a command skips the question exactly when its rule
        is stored, and then some recorded command of the same workspace has that rule. */
    method IsPreviouslyApproved(workspace: string, tool: string, command: Option<string>)
      returns (approved: bool, ghost source: nat)
      requires Valid()
      ensures approved <==> tool == "bash" && command.Some?
                            && LearnableRule(simple, command.value).Some?
                            && LearnableRule(simple, command.value).value in Rules(workspace)
      ensures approved ==> source < |log| && log[source].workspace == workspace
                           && LearnableRule(simple, log[source].command) == LearnableRule(simple, command.value)
    {
      source := 0;
      if tool != "bash" || command.None? {
        return false, source;
      }
      var rule := LearnableRule(simple, command.value);
      approved := rule.Some? && rule.value in Rules(workspace);
      if approved {
        assert rule.value in AddedTo(log, workspace);
        source := AddedHasSource(log, workspace, rule.value);
      }
    }
  }
}
