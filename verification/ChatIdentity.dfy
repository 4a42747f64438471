/** Durable peer keys: strings that must stand for exactly the routing fields they are built from. */
module ChatIdentity {
  import opened Prelude

  datatype Agent = Claude | Codex | OpenCode | Custom
  datatype Transport = Local | DeclaredService

  datatype ManagedPeer = ManagedPeer(machine: string, agent: Agent, session: string, threadId: string)
  datatype AppPeer = AppPeer(machine: string, threadId: string, name: Option<string>)

  datatype Principal =
    | Managed(peer: ManagedPeer)
    | App(app: AppPeer)
    | Cli(machine: string)
    | Service(machine: string, transport: Transport)

  datatype Target =
    | ToManaged(peer: ManagedPeer)
    | ToApp(app: AppPeer)
    | ToOwner
    | ToExternal(name: string)

  // ---- Schema -----------------------------------------------------------------------------------

  predicate Lower(c: char) {
    'a' <= c <= 'z'
  }

  predicate MachineOk(s: string) {
    && s != "" && Lower(s[0])
    && forall c :: c in s ==> Lower(c) || '0' <= c <= '9' || c == '-'
  }

  predicate SessionNameOk(s: string) {
    s != "" && forall c :: c in s ==> c != '|' && c != '#' && c != ':' && !Space(c)
  }

  /** Of a UUID only its alphabet matters here. */
  predicate UuidOk(s: string) {
    |s| == 36 && forall c :: c in s ==> '0' <= c <= '9' || 'a' <= c <= 'f' || 'A' <= c <= 'F' || c == '-'
  }

  predicate ManagedOk(p: ManagedPeer) {
    MachineOk(p.machine) && SessionNameOk(p.session) && UuidOk(p.threadId)
  }

  predicate AppOk(p: AppPeer) {
    MachineOk(p.machine) && UuidOk(p.threadId) && (p.name.Some? ==> 1 <= |p.name.value| <= 240)
  }

  predicate PrincipalOk(p: Principal) {
    match p
    case Managed(peer) => ManagedOk(peer)
    case App(app) => AppOk(app)
    case Cli(machine) => MachineOk(machine)
    case Service(machine, _) => MachineOk(machine)
  }

  predicate TargetOk(t: Target) {
    match t
    case ToManaged(peer) => ManagedOk(peer)
    case ToApp(app) => AppOk(app)
    case ToOwner => true
    case ToExternal(name) => SessionNameOk(name)
  }

  // ---- Keys -------------------------------------------------------------------------------------

  function AgentName(agent: Agent): string {
    match agent
    case Claude => "claude"
    case Codex => "codex"
    case OpenCode => "opencode"
    case Custom => "custom"
  }

  function ManagedPeerKey(p: ManagedPeer): string {
    "ccmux" + ":" + (p.machine + ":" + (AgentName(p.agent) + ":" + (p.session + ":" + p.threadId)))
  }

  function AppPeerKey(p: AppPeer): string {
    "codex-app" + ":" + (p.machine + "#" + p.threadId)
  }

  function HostKey(machine: string): string {
    "ccmux" + ":" + (machine + ":" + "cli")
  }

  function PrincipalKey(p: Principal): string {
    match p
    case Managed(peer) => ManagedPeerKey(peer)
    case App(app) => AppPeerKey(app)
    case Cli(machine) => HostKey(machine)
    case Service(machine, _) => HostKey(machine)
  }

  function TargetKey(t: Target): string {
    match t
    case ToManaged(peer) => ManagedPeerKey(peer)
    case ToApp(app) => AppPeerKey(app)
    case ToOwner => "owner"
    case ToExternal(name) => "external" + ":" + name
  }

  function SenderKey(p: Principal): string {
    match p
    case Managed(peer) => "ccmux" + ":" + (peer.machine + ":" + (AgentName(peer.agent) + ":" + peer.session))
    case _ => PrincipalKey(p)
  }

  // ---- What two parties share when their keys are equal -----------------------------------------

  /** The same route: exact conversation, exact App thread, or the same host account by either ingress. */
  predicate SameRoute(a: Principal, b: Principal) {
    match a
    case Managed(peer) => b.Managed? && b.peer == peer
    case App(app) => b.App? && b.app.machine == app.machine && b.app.threadId == app.threadId
    case _ => (b.Cli? || b.Service?) && b.machine == a.machine
  }

  predicate SameDestination(a: Target, b: Target) {
    match a
    case ToManaged(peer) => b.ToManaged? && b.peer == peer
    case ToApp(app) => b.ToApp? && b.app.machine == app.machine && b.app.threadId == app.threadId
    case ToOwner => b.ToOwner?
    case ToExternal(name) => b.ToExternal? && b.name == name
  }

  /** The same named session under the same runtime, in whichever of its lives. */
  predicate SameSession(a: Principal, b: Principal) {
    if a.Managed? && b.Managed? then
      a.peer.machine == b.peer.machine && a.peer.agent == b.peer.agent && a.peer.session == b.peer.session
    else SameRoute(a, b)
  }

  /** A target that a principal can also be. */
  predicate Reaches(t: Target, p: Principal) {
    match t
    case ToManaged(peer) => p == Managed(peer)
    case ToApp(app) => p.App? && p.app.machine == app.machine && p.app.threadId == app.threadId
    case _ => false
  }

  predicate Free(s: string, mark: char) {
    forall c :: c in s ==> c != mark
  }

  /** A field without the separator ends at the first separator. */
  lemma FieldSplits(a: string, b: string, x: string, y: string, mark: char)
    requires Free(a, mark) && Free(b, mark)
    ensures a + [mark] + x == b + [mark] + y <==> a == b && x == y
  {
    if a + [mark] + x == b + [mark] + y {
      var s := a + [mark] + x;
      assert forall k :: 0 <= k < |a| ==> a[k] in a && s[k] == a[k];
      assert forall k :: 0 <= k < |b| ==> b[k] in b && s[k] == b[k];
      assert s[|a|] == mark && s[|b|] == mark;
      assert |a| == |b|;
      assert s[..|a|] == a && s[..|b|] == b;
      assert s[|a| + 1..] == x && s[|b| + 1..] == y;
    }
  }

  lemma NoField(a: string, b: string, y: string, mark: char)
    requires Free(a, mark)
    ensures a != b + [mark] + y
  {
    assert (b + [mark] + y)[|b|] == mark;
    assert forall k :: 0 <= k < |a| ==> a[k] in a;
  }

  lemma AgentNamesDiffer(a: Agent, b: Agent)
    ensures Free(AgentName(a), ':')
    ensures AgentName(a) == AgentName(b) ==> a == b
  {
    assert |AgentName(Claude)| == 6 && |AgentName(Custom)| == 6;
    assert |AgentName(Codex)| == 5 && |AgentName(OpenCode)| == 8;
    assert AgentName(Claude)[0] == 'c' && AgentName(Claude)[1] == 'l' && AgentName(Custom)[1] == 'u';
  }

  lemma ManagedKeys(a: ManagedPeer, b: ManagedPeer)
    requires ManagedOk(a) && ManagedOk(b)
    ensures ManagedPeerKey(a) == ManagedPeerKey(b) <==> a == b
  {
    AgentNamesDiffer(a.agent, b.agent);
    var a3, b3 := a.session + ":" + a.threadId, b.session + ":" + b.threadId;
    var a2, b2 := AgentName(a.agent) + ":" + a3, AgentName(b.agent) + ":" + b3;
    var a1, b1 := a.machine + ":" + a2, b.machine + ":" + b2;
    FieldSplits("ccmux", "ccmux", a1, b1, ':');
    FieldSplits(a.machine, b.machine, a2, b2, ':');
    FieldSplits(AgentName(a.agent), AgentName(b.agent), a3, b3, ':');
    FieldSplits(a.session, b.session, a.threadId, b.threadId, ':');
  }

  lemma AppKeys(a: AppPeer, b: AppPeer)
    requires AppOk(a) && AppOk(b)
    ensures AppPeerKey(a) == AppPeerKey(b) <==> a.machine == b.machine && a.threadId == b.threadId
  {
    FieldSplits("codex-app", "codex-app", a.machine + "#" + a.threadId, b.machine + "#" + b.threadId, ':');
    FieldSplits(a.machine, b.machine, a.threadId, b.threadId, '#');
  }

  lemma HostKeys(a: string, b: string)
    requires MachineOk(a) && MachineOk(b)
    ensures HostKey(a) == HostKey(b) <==> a == b
  {
    FieldSplits("ccmux", "ccmux", a + ":" + "cli", b + ":" + "cli", ':');
    FieldSplits(a, b, "cli", "cli", ':');
  }

  lemma ManagedIsNotHost(a: ManagedPeer, machine: string)
    requires ManagedOk(a) && MachineOk(machine)
    ensures ManagedPeerKey(a) != HostKey(machine)
  {
    var a2 := AgentName(a.agent) + ":" + (a.session + ":" + a.threadId);
    FieldSplits("ccmux", "ccmux", a.machine + ":" + a2, machine + ":" + "cli", ':');
    FieldSplits(a.machine, machine, a2, "cli", ':');
    NoField("cli", AgentName(a.agent), a.session + ":" + a.threadId, ':');
  }

  /** Keys that begin with different source fields differ. */
  lemma SourcesDiffer(x: string, y: string)
    ensures "ccmux" + ":" + x != "codex-app" + ":" + y
    ensures "ccmux" + ":" + x != "external" + ":" + y
    ensures "codex-app" + ":" + x != "external" + ":" + y
    ensures "ccmux" + ":" + x != "owner" && "codex-app" + ":" + x != "owner" && "external" + ":" + x != "owner"
  {
    FieldSplits("ccmux", "codex-app", x, y, ':');
    FieldSplits("ccmux", "external", x, y, ':');
    FieldSplits("codex-app", "external", x, y, ':');
    NoField("owner", "ccmux", x, ':');
    NoField("owner", "codex-app", x, ':');
    NoField("owner", "external", x, ':');
    assert |"ccmux"| == 5 && |"codex-app"| == 9 && |"external"| == 8;
  }

  /** Two principals share a key exactly when they share a route. */
  lemma PrincipalKeysAreRoutes(a: Principal, b: Principal)
    requires PrincipalOk(a) && PrincipalOk(b)
    ensures PrincipalKey(a) == PrincipalKey(b) <==> SameRoute(a, b)
  {
    match (a, b)
    case (Managed(p), Managed(q)) => ManagedKeys(p, q);
    case (App(p), App(q)) => AppKeys(p, q);
    case (Managed(p), App(q)) => ManagedAndApp(p, q);
    case (App(p), Managed(q)) => ManagedAndApp(q, p);
    case (Managed(p), _) => ManagedIsNotHost(p, b.machine);
    case (_, Managed(q)) => ManagedIsNotHost(q, a.machine);
    case (App(p), _) => SourcesDiffer(b.machine + ":" + "cli", p.machine + "#" + p.threadId);
    case (_, App(q)) => SourcesDiffer(a.machine + ":" + "cli", q.machine + "#" + q.threadId);
    case (_, _) => HostKeys(a.machine, b.machine);
  }

  lemma ManagedAndApp(p: ManagedPeer, q: AppPeer)
    ensures ManagedPeerKey(p) != AppPeerKey(q)
  {
    SourcesDiffer(p.machine + ":" + (AgentName(p.agent) + ":" + (p.session + ":" + p.threadId)),
                  q.machine + "#" + q.threadId);
  }

  lemma ManagedAndOther(p: ManagedPeer, name: string)
    ensures ManagedPeerKey(p) != "external" + ":" + name && ManagedPeerKey(p) != "owner"
  {
    SourcesDiffer(p.machine + ":" + (AgentName(p.agent) + ":" + (p.session + ":" + p.threadId)), name);
  }

  lemma AppAndOther(p: AppPeer, name: string)
    ensures AppPeerKey(p) != "external" + ":" + name && AppPeerKey(p) != "owner"
  {
    SourcesDiffer(p.machine + "#" + p.threadId, name);
  }

  /** Two targets share a key exactly when they are one destination; no two kinds collide. */
  lemma TargetKeysAreDestinations(a: Target, b: Target)
    requires TargetOk(a) && TargetOk(b)
    ensures TargetKey(a) == TargetKey(b) <==> SameDestination(a, b)
  {
    var other := if b.ToExternal? then b.name else if a.ToExternal? then a.name else "";
    SourcesDiffer(other, other);
    match (a, b)
    case (ToManaged(p), ToManaged(q)) => ManagedKeys(p, q);
    case (ToApp(p), ToApp(q)) => AppKeys(p, q);
    case (ToManaged(p), ToApp(q)) => ManagedAndApp(p, q);
    case (ToApp(p), ToManaged(q)) => ManagedAndApp(q, p);
    case (ToManaged(p), _) => ManagedAndOther(p, other);
    case (_, ToManaged(q)) => ManagedAndOther(q, other);
    case (ToApp(p), _) => AppAndOther(p, other);
    case (_, ToApp(q)) => AppAndOther(q, other);
    case (ToExternal(x), ToExternal(y)) => FieldSplits("external", "external", x, y, ':');
    case (_, _) =>
  }

  lemma NotAPrincipal(p: Principal, name: string)
    ensures PrincipalKey(p) != "external" + ":" + name && PrincipalKey(p) != "owner"
  {
    match p
    case Managed(peer) => ManagedAndOther(peer, name);
    case App(app) => AppAndOther(app, name);
    case Cli(machine) => SourcesDiffer(machine + ":" + "cli", name);
    case Service(machine, _) => SourcesDiffer(machine + ":" + "cli", name);
  }

  /** A target's key is a principal's key exactly when the target is that principal. */
  lemma TargetMeetsPrincipal(t: Target, p: Principal)
    requires TargetOk(t) && PrincipalOk(p)
    ensures TargetKey(t) == PrincipalKey(p) <==> Reaches(t, p)
  {
    match t
    case ToManaged(peer) => PrincipalKeysAreRoutes(Managed(peer), p);
    case ToApp(app) => PrincipalKeysAreRoutes(App(app), p);
    case ToOwner => NotAPrincipal(p, "");
    case ToExternal(name) => NotAPrincipal(p, name);
  }

  /** Two principals are one sender exactly when they are one session or one route. */
  lemma SenderKeysAreSessions(a: Principal, b: Principal)
    requires PrincipalOk(a) && PrincipalOk(b)
    ensures SenderKey(a) == SenderKey(b) <==> SameSession(a, b)
  {
    if a.Managed? && b.Managed? {
      var p, q := a.peer, b.peer;
      AgentNamesDiffer(p.agent, q.agent);
      FieldSplits("ccmux", "ccmux", p.machine + ":" + (AgentName(p.agent) + ":" + p.session),
                  q.machine + ":" + (AgentName(q.agent) + ":" + q.session), ':');
      FieldSplits(p.machine, q.machine, AgentName(p.agent) + ":" + p.session,
                  AgentName(q.agent) + ":" + q.session, ':');
      FieldSplits(AgentName(p.agent), AgentName(q.agent), p.session, q.session, ':');
    } else if a.Managed? {
      SenderIsNotAnother(a.peer, b);
    } else if b.Managed? {
      SenderIsNotAnother(b.peer, a);
    } else {
      PrincipalKeysAreRoutes(a, b);
    }
  }

  lemma SenderIsNotAnother(p: ManagedPeer, b: Principal)
    requires ManagedOk(p) && PrincipalOk(b) && !b.Managed?
    ensures SenderKey(Managed(p)) != PrincipalKey(b)
  {
    var rest := AgentName(p.agent) + ":" + p.session;
    if b.App? {
      SourcesDiffer(p.machine + ":" + rest, b.app.machine + "#" + b.app.threadId);
    } else {
      FieldSplits("ccmux", "ccmux", p.machine + ":" + rest, b.machine + ":" + "cli", ':');
      FieldSplits(p.machine, b.machine, rest, "cli", ':');
      NoField("cli", AgentName(p.agent), p.session, ':');
    }
  }

  /** The same principal is always the same sender. */
  lemma SamePrincipalIsSameSender(a: Principal, b: Principal)
    requires PrincipalOk(a) && PrincipalOk(b) && PrincipalKey(a) == PrincipalKey(b)
    ensures SenderKey(a) == SenderKey(b)
  {
    PrincipalKeysAreRoutes(a, b);
    SenderKeysAreSessions(a, b);
  }
}
