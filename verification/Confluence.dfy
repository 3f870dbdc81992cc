/**
 The schedule does not enter: two runs of one operation, however they interleave and whatever
 fails in either, agree on everything both have computed. References are resolved at run time
 against what has been published so far, and still resolve alike.
 */
module Confluence {
  import opened Models
  import opened References
  import opened Reachability
  import opened Parsers
  import opened Engine
  import opened Safety
  import opened Resolved
  import opened Determined
  import opened Progress
  import opened Converge

  /** What both runs have computed for a resource of the spec. */
  ghost predicate AgreeAt(c: Config, s: State, t: State, n: string)
    requires n in s.phase && n in t.phase
  {
    var p, q := s.phase[n], t.phase[n];
    && (IsRunning(p) && IsRunning(q) ==> Get(s.spec, n) == Get(t.spec, n))
    && (HasAction(p) && HasAction(q) ==> p.action == q.action && (IsPreview(c.op) ==> p.result == q.result))
    && (HasCalled(p) && HasCalled(q) ==> p.result == q.result && Get(s.live, n) == Get(t.live, n))
  }

  /** Both runs know of the resource what holds at every reachable state. */
  ghost predicate BothKnow(c: Config, s: State, t: State, n: string) {
    n in Nodes(c) && FactsAt(c, s, n) && FactsAt(c, t, n) && DeterminedAt(c, s, n) && DeterminedAt(c, t, n)
  }

  lemma BothHold(c: Config, s: State, t: State, n: string)
    requires Keyed(c) && Reachable(c, s) && Reachable(c, t) && n in Nodes(c)
    ensures BothKnow(c, s, t, n)
  {
    NodeFacts(c, s, n);
    NodeFacts(c, t, n);
    VertexIsDetermined(c, s, n);
    VertexIsDetermined(c, t, n);
  }

  /** Once the plans agree, so does all that follows from them. */
  lemma PlansDecide(c: Config, s: State, t: State, n: string)
    requires n in c.spec && BothKnow(c, s, t, n)
    requires IsRunning(s.phase[n]) && IsRunning(t.phase[n]) ==> s.spec[n] == t.spec[n]
    ensures AgreeAt(c, s, t, n)
  {
  }

  /** What both have published under one key is the same. */
  lemma EntriesAgree(c: Config, s: State, t: State, k: string)
    requires k in c.spec && BothKnow(c, s, t, k) && AgreeAt(c, s, t, k) && k in s.ctx && k in t.ctx
    requires IsPreview(c.op) ==> !s.phase[k].Called? && !t.phase[k].Called?
    ensures s.ctx[k] == t.ctx[k]
  {
  }

  /** Plans resolved against two indexes agree if the indexes do on the keys the spec refers to. */
  lemma PlansAgree(c: Config, s: State, t: State, n: string)
    requires n in c.spec && BothKnow(c, s, t, n) && IsRunning(s.phase[n]) && IsRunning(t.phase[n])
    requires EnvOf(c, s.ctx).implicit.Resolve? ==>
      forall k :: k in Refs(c.spec[n].attributes) ==> k in s.ctx && k in t.ctx && s.ctx[k] == t.ctx[k]
    ensures s.spec[n] == t.spec[n]
  {
    if EnvOf(c, s.ctx).implicit.Resolve? {
      ResolutionReadsRefs(c.spec[n].attributes, s.ctx, t.ctx, c.secrets);
    }
  }

  lemma RefIsPublished(c: Config, s: State, n: string, k: string)
    requires Keyed(c) && Reachable(c, s) && n in c.spec && n in s.phase && IsRunning(s.phase[n])
    requires EnvOf(c, s.ctx).implicit.Resolve? && k in Refs(c.spec[n].attributes)
    ensures k in s.ctx
  {
    VertexIsDetermined(c, s, n);
    ResolvedRefsArePresent(c.spec[n].attributes, s.ctx, c.secrets, k);
  }

  /** Two runs agree on every resource of the spec, by induction on what the graph puts before it. */
  lemma {:induction false} RunsAgree(c: Config, s: State, t: State, n: string)
    requires WellFormed(c) && Reachable(c, s) && Reachable(c, t) && n in c.spec
    ensures n in s.phase && n in t.phase && AgreeAt(c, s, t, n)
    decreases |Before(c.edges, n)|, 2
  {
    BothHold(c, s, t, n);
    if IsRunning(s.phase[n]) && IsRunning(t.phase[n]) {
      RunningPlansAgree(c, s, t, n);
    }
    PlansDecide(c, s, t, n);
  }

  lemma {:induction false} RunningPlansAgree(c: Config, s: State, t: State, n: string)
    requires WellFormed(c) && Reachable(c, s) && Reachable(c, t) && n in c.spec
    requires BothKnow(c, s, t, n) && IsRunning(s.phase[n]) && IsRunning(t.phase[n])
    ensures s.spec[n] == t.spec[n]
    decreases |Before(c.edges, n)|, 1
  {
    if EnvOf(c, s.ctx).implicit.Resolve? {
      forall k | k in Refs(c.spec[n].attributes) ensures k in s.ctx && k in t.ctx && s.ctx[k] == t.ctx[k] {
        RefAgrees(c, s, t, n, k);
      }
    }
    PlansAgree(c, s, t, n);
  }

  lemma {:induction false} RefAgrees(c: Config, s: State, t: State, n: string, k: string)
    requires WellFormed(c) && Reachable(c, s) && Reachable(c, t) && n in c.spec && k in Refs(c.spec[n].attributes)
    requires n in s.phase && IsRunning(s.phase[n]) && n in t.phase && IsRunning(t.phase[n])
    requires EnvOf(c, s.ctx).implicit.Resolve?
    ensures k in s.ctx && k in t.ctx && s.ctx[k] == t.ctx[k]
    decreases |Before(c.edges, n)|, 0
  {
    RefIsPublished(c, s, n, k);
    RefIsPublished(c, t, n, k);
    ReferencesAreOrdered(c, n, k);
    FewerBefore(c, k, n);
    RunsAgree(c, s, t, k);
    PublishedAlike(c, s, t, k);
  }

  lemma PublishedAlike(c: Config, s: State, t: State, k: string)
    requires Keyed(c) && Reachable(c, s) && Reachable(c, t) && k in c.spec
    requires k in s.phase && k in t.phase && AgreeAt(c, s, t, k) && k in s.ctx && k in t.ctx
    ensures s.ctx[k] == t.ctx[k]
  {
    BothHold(c, s, t, k);
    if IsPreview(c.op) {
      PreviewsDoNotCall(c, s, k);
      PreviewsDoNotCall(c, t, k);
    }
    EntriesAgree(c, s, t, k);
  }

  lemma CompleteAppliesAgreeAt(c: Config, s: State, t: State, n: string)
    requires WellFormed(c) && Completed(c, s) && Completed(c, t) && n in c.spec
    ensures Get(s.live, n) == Get(t.live, n) && Get(Latest(c, s), n) == Get(Latest(c, t), n)
  {
    RunsAgree(c, s, t, n);
    RecordedResource(c, s, n);
    RecordedResource(c, t, n);
  }

  lemma SameEntries(a: Index, b: Index)
    requires a.Keys == b.Keys && forall n :: n in a ==> Get(a, n) == Get(b, n)
    ensures a == b
  {
    forall n | n in a ensures a[n] == b[n] { assert Get(a, n) == Get(b, n); }
  }

  /** Two complete applies of the same inputs leave the same record, and the same live state of what the spec keeps. */
  lemma CompleteAppliesAgree(c: Config, s: State, t: State)
    requires WellFormed(c) && Completed(c, s) && Completed(c, t)
    ensures Latest(c, s) == Latest(c, t)
    ensures forall n :: n in c.spec ==> Get(s.live, n) == Get(t.live, n)
  {
    RecordedKeys(c, s);
    RecordedKeys(c, t);
    forall n | n in c.spec ensures Get(s.live, n) == Get(t.live, n) && Get(Latest(c, s), n) == Get(Latest(c, t), n) {
      CompleteAppliesAgreeAt(c, s, t, n);
    }
    SameEntries(Latest(c, s), Latest(c, t));
  }
}
