/** The ApplySet of an instance (pkg/controller/instance/applyset): the members that carry its label,
    the scope recorded on the parent (KEP-3659), and the requests that delete or release members. */
module ApplySet {

  import opened Collections
  import opened Digraph

  datatype GroupKind = GroupKind(group: string, kind: string)

  datatype Ns = NoNs | Ns(name: string)

  datatype Uid = Uid(text: string)

  /** deletionPolicy annotation; anything unrecognised reads as Delete. */
  datatype Policy = Delete | Orphaned

  /** A labelled object: order is the apply-order annotation when it is a number, nodePath and nodeLabel name
      the node that produced it. */
  datatype Member = Member(gk: GroupKind, ns: Ns, nodePath: Option<Id>, nodeLabel: Option<Id>, order: Option<int>, policy: Policy)

  /** Group-kinds and additional namespaces, as the parent's annotations record them. */
  datatype Scope = Scope(gks: set<GroupKind>, namespaces: set<Ns>)

  const DEFAULT := Ns("default")

  function Union(a: Scope, b: Scope): Scope {
    Scope(a.gks + b.gks, a.namespaces + b.namespaces)
  }

  ghost predicate Within(a: Scope, b: Scope) {
    a.gks <= b.gks && a.namespaces <= b.namespaces
  }

  /** The namespace that is always searched. */
  function Home(parentNs: Ns): Ns {
    if parentNs.NoNs? then DEFAULT else parentNs
  }

  /** A listing over this scope would find the member: cluster-scoped kinds are listed everywhere. */
  predicate InScope(scope: Scope, parentNs: Ns, m: Member) {
    m.gk in scope.gks && (m.ns.NoNs? || m.ns in scope.namespaces || m.ns == Home(parentNs))
  }

  /** What is searched for a recorded kind: cluster-scoped objects, the recorded namespaces, and always
      the parent's own or, for a cluster-scoped parent, default. */
  lemma ScopeSearches(scope: Scope, parentNs: Ns, m: Member)
    requires m.gk in scope.gks
    ensures m.ns == NoNs ==> InScope(scope, parentNs, m)
    ensures m.ns in scope.namespaces ==> InScope(scope, parentNs, m)
    ensures parentNs.Ns? && m.ns.Ns? && m.ns !in scope.namespaces ==> (InScope(scope, parentNs, m) <==> m.ns == parentNs)
    ensures parentNs.NoNs? && m.ns.Ns? && m.ns !in scope.namespaces ==> (InScope(scope, parentNs, m) <==> m.ns == Ns("default"))
  {
  }

  lemma WiderScope(a: Scope, b: Scope, parentNs: Ns, m: Member)
    requires Within(a, b) && InScope(a, parentNs, m)
    ensures InScope(b, parentNs, m)
  {
  }

  /* ---------- requests to the API server ---------- */

  datatype Request = DeleteRequest(uid: Uid) | ReleaseRequest(uid: Uid)

  /** What the API server answers: NotFound counts as done, a conflict leaves the object in place. A
      failed request may still have taken effect. */
  datatype Answer = Accepted | NotFound | Conflict | Failed(landed: bool)

  /** How a write of the parent ended. A failed write may still have taken effect. */
  datatype Write = Done | FailedCommitted | FailedLost

  /** The API server accepts every request, or finds the target gone already. */
  ghost predicate Obliging(answers: Uid -> Answer) {
    forall u :: answers(u).Accepted? || answers(u).NotFound?
  }

  /** The labelled objects by UID; those being deleted stay members until they are gone. */
  datatype Store = Store(members: map<Uid, Member>, terminating: set<Uid>, requests: seq<Request>)

  function DeleteOrphan(s: Store, uid: Uid, answer: Answer): Store {
    var sent := s.(requests := s.requests + [DeleteRequest(uid)]);
    match answer
    case Accepted => sent.(terminating := s.terminating + {uid})
    case NotFound => sent.(members := s.members - {uid})
    case Conflict => sent
    case Failed(landed) => if landed then sent.(terminating := s.terminating + {uid}) else sent
  }

  /** Strips kro's labels, so the object is no longer a member. */
  function ReleaseOrphan(s: Store, uid: Uid, answer: Answer): Store {
    var sent := s.(requests := s.requests + [ReleaseRequest(uid)]);
    match answer
    case Accepted => sent.(members := s.members - {uid})
    case NotFound => sent.(members := s.members - {uid})
    case Conflict => sent
    case Failed(landed) => if landed then sent.(members := s.members - {uid}) else sent
  }

  /** ListOrphans: every member in scope that is not kept. */
  ghost predicate Orphan(s: Store, scope: Scope, parentNs: Ns, keep: set<Uid>, uid: Uid) {
    uid in s.members && uid !in keep && InScope(scope, parentNs, s.members[uid])
  }

  ghost predicate Lists(s: Store, scope: Scope, parentNs: Ns, keep: set<Uid>, candidates: seq<Uid>) {
    NoDup(candidates) && forall u :: u in candidates <==> Orphan(s, scope, parentNs, keep, u)
  }

  /** The kinds and namespaces are listed concurrently, so the order of the result is arbitrary. */
  method ListOrphans(s: Store, scope: Scope, parentNs: Ns, keep: set<Uid>) returns (candidates: seq<Uid>)
    ensures Lists(s, scope, parentNs, keep, candidates)
  {
    candidates := [];
    var rest := s.members.Keys;
    while rest != {}
      invariant rest <= s.members.Keys
      invariant NoDup(candidates)
      invariant forall u :: u in candidates <==> u !in rest && Orphan(s, scope, parentNs, keep, u)
      decreases rest
    {
      var u :| u in rest;
      rest := rest - {u};
      if u !in keep && InScope(scope, parentNs, s.members[u]) {
        candidates := candidates + [u];
      }
    }
  }
}
