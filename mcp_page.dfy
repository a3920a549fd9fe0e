/**
 * The controller logic of the MCP tools page (page-mcp.js): the module-level
 * state (server snapshot, loading flag, toast list and toast counter, the nav
 * badge) and the handlers that change it, plus the per-row, per-card and
 * install-box component state.
 *
 * Browser effects become explicit: every request the page sends is appended
 * to `Page.calls`, and what an awaited `fetch` or `sendRpc` yields is a
 * parameter of the handler that awaits it.  Each handler runs to completion;
 * the toast timer is the separate step `ExpireToast`.
 */
module McpPage {
  import opened Wrappers
  import opened Text
  import opened EnvLines
  import opened CommandName

  // ---------------------------------------------------------------------
  // Values

  datatype Server = Server(name: string, state: string, enabled: bool)

  datatype Tool = Tool(name: string, description: string)

  /** The toast `type`: "success" or "error". */
  datatype ToastKind = Success | Failure

  datatype Toast = Toast(id: nat, message: string, kind: ToastKind)

  /** What the page sends: the HTTP list request and the WebSocket RPCs. */
  datatype Request =
    | FetchServers                      // fetch("/api/mcp")
    | ListRpc                           // sendRpc("mcp.list", {})
    | AddRpc(name: string, command: string, args: seq<string>, env: map<string, string>)
    | EnableRpc(server: string)
    | DisableRpc(server: string)
    | RestartRpc(server: string)
    | RemoveRpc(server: string)
    | ToolsRpc(server: string)

  /** A JSON body: one that fails to parse, a falsy one (null), or a value. */
  datatype Body<T> = Malformed | Falsy | Value(value: T)

  /** What `await fetch("/api/mcp")` does: throw, or answer. */
  datatype HttpOutcome = Threw | Response(ok: bool, body: Body<seq<Server>>)

  /** What an awaited `sendRpc` resolves to; a falsy payload is None. */
  datatype RpcReply<T> = RpcReply(ok: bool, payload: Option<T>)

  /** `res.error` of a failed add: absent or falsy, a string, or an object
      with or without a `message`. */
  datatype ErrorValue = NoError | ErrorString(text: string) | ErrorObject(message: Option<string>)

  /** What `await sendRpc("mcp.add", …)` resolves to (None: no response object). */
  datatype AddReply = NoReply | Reply(ok: bool, payloadName: Option<string>, error: ErrorValue)

  /** The page's state apart from the request log. */
  datatype PageView = PageView(servers: seq<Server>, loading: bool, toasts: seq<Toast>, toastId: nat, badge: nat)

  // ---------------------------------------------------------------------
  // Refreshing the snapshot

  function PayloadOr<T>(payload: Option<seq<T>>): seq<T> {
    if payload.Some? then payload.value else []
  }

  /** The HTTP request fails over to the RPC: it threw, or its body did not parse. */
  predicate FallsBack(http: HttpOutcome) {
    http.Threw? || (http.ok && http.body.Malformed?)
  }

  /** The HTTP request answered ok with a parseable body. */
  predicate HttpSucceeded(http: HttpOutcome) {
    http.Response? && http.ok && !http.body.Malformed?
  }

  /** The requests one refresh sends. */
  function RefreshCalls(http: HttpOutcome): seq<Request> {
    [FetchServers] + (if FallsBack(http) then [ListRpc] else [])
  }

  /** The snapshot after a refresh. */
  function NextSnapshot(current: seq<Server>, http: HttpOutcome, rpc: RpcReply<seq<Server>>): seq<Server> {
    if HttpSucceeded(http) then
      (if http.body.Value? then http.body.value else [])
    else if FallsBack(http) && rpc.ok then
      PayloadOr(rpc.payload)
    else
      current
  }

  /** The snapshot changes only through a successful response or a successful fallback. */
  lemma SnapshotReplacedOnlyOnSuccess(current: seq<Server>, http: HttpOutcome, rpc: RpcReply<seq<Server>>)
    ensures NextSnapshot(current, http, rpc) != current ==> HttpSucceeded(http) || (FallsBack(http) && rpc.ok)
    ensures HttpSucceeded(http) ==> NextSnapshot(current, http, rpc) == (if http.body.Value? then http.body.value else [])
    ensures !HttpSucceeded(http) && FallsBack(http) && rpc.ok ==> NextSnapshot(current, http, rpc) == PayloadOr(rpc.payload)
    ensures HttpSucceeded(http) ==> ListRpc !in RefreshCalls(http)
  {
  }

  /** A response that is not ok keeps the snapshot and sends no RPC. */
  lemma NotOkKeepsSnapshot(current: seq<Server>, body: Body<seq<Server>>, rpc: RpcReply<seq<Server>>)
    ensures NextSnapshot(current, Response(false, body), rpc) == current
    ensures RefreshCalls(Response(false, body)) == [FetchServers]
  {
  }

  /** The badge: how many servers are in state "running". */
  function RunningCount(servers: seq<Server>): (n: nat)
    ensures n <= |servers|
  {
    if servers == [] then 0
    else RunningCount(servers[..|servers| - 1]) + (if servers[|servers| - 1].state == "running" then 1 else 0)
  }

  lemma {:induction false} RunningCountAppend(a: seq<Server>, b: seq<Server>)
    ensures RunningCount(a + b) == RunningCount(a) + RunningCount(b)
    decreases |b|
  {
    if b == [] {
      assert a + b == a;
    } else {
      var n := |b| - 1;
      assert (a + b)[..|a + b| - 1] == a + b[..n];
      RunningCountAppend(a, b[..n]);
    }
  }

  /** The badge counts every server exactly when all are running, and none
      exactly when none is. */
  lemma {:induction false} RunningCountExtremes(servers: seq<Server>)
    ensures RunningCount(servers) == |servers| <==> forall i :: 0 <= i < |servers| ==> servers[i].state == "running"
    ensures RunningCount(servers) == 0 <==> forall i :: 0 <= i < |servers| ==> servers[i].state != "running"
    decreases |servers|
  {
    if servers != [] {
      var init := servers[..|servers| - 1];
      RunningCountExtremes(init);
      assert forall i :: 0 <= i < |init| ==> init[i] == servers[i];
    }
  }

  // ---------------------------------------------------------------------
  // Toasts

  predicate IdsIncreasing(ts: seq<Toast>) {
    forall i, j :: 0 <= i < j < |ts| ==> ts[i].id < ts[j].id
  }

  /** `toasts.filter((t) => t.id !== id)`. */
  function RemoveToast(ts: seq<Toast>, id: nat): (r: seq<Toast>)
    ensures forall t :: t in r <==> t in ts && t.id != id
    ensures |r| <= |ts|
  {
    if ts == [] then []
    else
      var rest := RemoveToast(ts[..|ts| - 1], id);
      var last := ts[|ts| - 1];
      assert forall t :: t in ts <==> t in ts[..|ts| - 1] || t == last;
      if last.id != id then rest + [last] else rest
  }

  lemma {:induction false} RemoveToastKeepsOrder(ts: seq<Toast>, id: nat)
    requires IdsIncreasing(ts)
    ensures IdsIncreasing(RemoveToast(ts, id))
    decreases |ts|
  {
    if ts != [] {
      var init := ts[..|ts| - 1];
      RemoveToastKeepsOrder(init, id);
      var rest := RemoveToast(init, id);
      var last := ts[|ts| - 1];
      if last.id != id {
        forall t | t in rest ensures t.id < last.id {
          var i :| 0 <= i < |init| && init[i] == t;
          assert ts[i] == t;
        }
        var r := rest + [last];
        forall i, j | 0 <= i < j < |r| ensures r[i].id < r[j].id {
          if j == |r| - 1 { assert r[i] in rest; }
        }
      }
    }
  }

  /** A toast id that no toast carries removes nothing. */
  lemma {:induction false} RemoveAbsentToast(ts: seq<Toast>, id: nat)
    requires forall i :: 0 <= i < |ts| ==> ts[i].id != id
    ensures RemoveToast(ts, id) == ts
    decreases |ts|
  {
    if ts != [] {
      var init := ts[..|ts| - 1];
      RemoveAbsentToast(init, id);
      assert init + [ts[|ts| - 1]] == ts;
    }
  }

  lemma IncreasingInit(ts: seq<Toast>)
    requires IdsIncreasing(ts) && ts != []
    ensures IdsIncreasing(ts[..|ts| - 1])
    ensures forall i :: 0 <= i < |ts| - 1 ==> ts[i].id < ts[|ts| - 1].id
  {
    var init := ts[..|ts| - 1];
    forall i, j | 0 <= i < j < |init| ensures init[i].id < init[j].id {
      assert init[i] == ts[i] && init[j] == ts[j];
    }
  }

  /** The timed removal deletes exactly the toast with that id and keeps the
      others in order. */
  lemma {:induction false} RemoveOneToast(ts: seq<Toast>, k: nat)
    requires IdsIncreasing(ts) && k < |ts|
    ensures RemoveToast(ts, ts[k].id) == ts[..k] + ts[k + 1..]
    decreases |ts|
  {
    var id := ts[k].id;
    var init := ts[..|ts| - 1];
    IncreasingInit(ts);
    if k == |ts| - 1 {
      assert forall i :: 0 <= i < |init| ==> init[i].id != id by {
        forall i | 0 <= i < |init| ensures init[i].id != id {
          assert init[i] == ts[i];
        }
      }
      RemoveAbsentToast(init, id);
      assert RemoveToast(ts, id) == RemoveToast(init, id);
      assert ts[..k] + ts[k + 1..] == init;
    } else {
      assert init[k] == ts[k];
      RemoveOneToast(init, k);
      assert RemoveToast(ts, id) == RemoveToast(init, id) + [ts[|ts| - 1]];
      DropBeforeLast(ts, k);
    }
  }

  /** Dropping position k of a sequence commutes with taking off its last element. */
  lemma DropBeforeLast<T>(s: seq<T>, k: nat)
    requires k < |s| - 1
    ensures s[..|s| - 1][..k] + s[..|s| - 1][k + 1..] + [s[|s| - 1]] == s[..k] + s[k + 1..]
  {
    assert s[..|s| - 1][..k] == s[..k];
    assert s[..|s| - 1][k + 1..] + [s[|s| - 1]] == s[k + 1..];
  }

  // ---------------------------------------------------------------------
  // Messages and labels

  /** `res.payload?.name || name`. */
  function FinalName(requested: string, payloadName: Option<string>): string {
    if payloadName.Some? && payloadName.value != [] then payloadName.value else requested
  }

  /** `res?.error?.message || res?.error || "unknown error"`, as interpolated
      into the message (an object without a message prints as "[object Object]"). */
  function ErrorText(e: ErrorValue): string {
    match e
    case NoError => "unknown error"
    case ErrorString(text) => if text != [] then text else "unknown error"
    case ErrorObject(message) => if message.Some? && message.value != [] then message.value else "[object Object]"
  }

  function AddedText(name: string): string {
    "Added MCP tool \"" + name + "\""
  }

  function FailedText(name: string, reason: string): string {
    "Failed to add \"" + name + "\": " + reason
  }

  /** The toast addServer shows for its reply. */
  function AddToast(requested: string, reply: AddReply): (string, ToastKind) {
    if reply.Reply? && reply.ok then
      (AddedText(FinalName(requested, reply.payloadName)), Success)
    else
      (FailedText(requested, ErrorText(if reply.Reply? then reply.error else NoError)), Failure)
  }

  /** The success toast names the payload's name, or the requested one when
      the payload has none; the failure toast names the requested one. */
  lemma AddToastNames(requested: string, reply: AddReply)
    ensures reply.Reply? && reply.ok && reply.payloadName.Some? && reply.payloadName.value != [] ==>
      AddToast(requested, reply) == (AddedText(reply.payloadName.value), Success)
    ensures reply.Reply? && reply.ok && (reply.payloadName.None? || reply.payloadName.value == []) ==>
      AddToast(requested, reply) == (AddedText(requested), Success)
    ensures !(reply.Reply? && reply.ok) ==> AddToast(requested, reply).1 == Failure
  {
  }

  /** The failure reason: the error's message, else the error string, else
      "unknown error"; never empty. */
  lemma FailureReasons(requested: string, m: string, s: string)
    ensures m != [] ==> AddToast(requested, Reply(false, None, ErrorObject(Some(m)))).0 == FailedText(requested, m)
    ensures s != [] ==> AddToast(requested, Reply(false, None, ErrorString(s))).0 == FailedText(requested, s)
    ensures AddToast(requested, NoReply).0 == FailedText(requested, "unknown error")
    ensures AddToast(requested, Reply(false, None, NoError)).0 == FailedText(requested, "unknown error")
    ensures AddToast(requested, Reply(false, None, ErrorString([]))).0 == FailedText(requested, "unknown error")
  {
  }

  lemma ErrorTextNonEmpty(e: ErrorValue)
    ensures ErrorText(e) != []
  {
  }

  /** The success message gives the name back. */
  lemma AddedTextInjective(a: string, b: string)
    requires AddedText(a) == AddedText(b)
    ensures a == b
  {
    var p := "Added MCP tool \"";
    assert AddedText(a) == p + a + "\"";
    assert |a| == |b|;
    forall i | 0 <= i < |a| ensures a[i] == b[i] {
      assert AddedText(a)[|p| + i] == a[i];
      assert AddedText(b)[|p| + i] == b[i];
    }
  }

  /** featuredButtonLabel. */
  function FeaturedButtonLabel(installing: bool, configuring: bool, needsConfig: bool): string {
    if installing then "Adding\U{2026}"
    else if configuring then "Confirm"
    else if needsConfig then "Configure"
    else "Add"
  }

  /** Each label shows in exactly one situation. */
  lemma ButtonLabels(installing: bool, configuring: bool, needsConfig: bool)
    ensures FeaturedButtonLabel(installing, configuring, needsConfig) == "Adding\U{2026}" <==> installing
    ensures FeaturedButtonLabel(installing, configuring, needsConfig) == "Confirm" <==> !installing && configuring
    ensures FeaturedButtonLabel(installing, configuring, needsConfig) == "Configure" <==> !installing && !configuring && needsConfig
    ensures FeaturedButtonLabel(installing, configuring, needsConfig) == "Add" <==> !installing && !configuring && !needsConfig
  {
    assert |"Adding\U{2026}"| == |"Confirm"| == 7 && |"Configure"| == 9 && |"Add"| == 3;
    assert "Adding\U{2026}"[0] != "Confirm"[0] && "Adding\U{2026}"[0] != "Configure"[0];
    assert "Add"[0] != "Confirm"[0];
  }

  function ConfirmRemoveText(name: string): string {
    "This will stop and remove the \"" + name + "\" MCP tool. This action cannot be undone."
  }

  // ---------------------------------------------------------------------
  // The page

  class Page {
    var servers: seq<Server>
    var loading: bool
    var toasts: seq<Toast>
    var toastId: nat
    /** The last count passed to updateNavCount("mcp", …). */
    var badge: nat
    /** Every request sent, in order. */
    var calls: seq<Request>

    /** Toast ids are increasing, start at 1 and never exceed the counter. */
    predicate Valid()
      reads this
    {
      IdsIncreasing(toasts) && forall i :: 0 <= i < |toasts| ==> 1 <= toasts[i].id <= toastId
    }

    function View(): PageView
      reads this
    {
      PageView(servers, loading, toasts, toastId, badge)
    }

    constructor()
      ensures Valid() && calls == []
      ensures View() == PageView([], false, [], 0, 0)
    {
      servers := [];
      loading := false;
      toasts := [];
      toastId := 0;
      badge := 0;
      calls := [];
    }

    /** sendRpc / fetch: the request is sent; nothing else changes. */
    method Send(r: Request)
      modifies this
      ensures calls == old(calls) + [r]
      ensures View() == old(View())
    {
      calls := calls + [r];
    }

    /** showToast: a fresh id above every earlier one; the toast goes last. */
    method ShowToast(message: string, kind: ToastKind)
      requires Valid()
      modifies this
      ensures Valid()
      ensures toastId == old(toastId) + 1
      ensures toasts == old(toasts) + [Toast(toastId, message, kind)]
      ensures forall i :: 0 <= i < |old(toasts)| ==> old(toasts)[i].id < toastId
      ensures servers == old(servers) && loading == old(loading) && badge == old(badge) && calls == old(calls)
    {
      toastId := toastId + 1;
      toasts := toasts + [Toast(toastId, message, kind)];
    }

    /** The timer of showToast firing for `id`. */
    method ExpireToast(id: nat)
      requires Valid()
      modifies this
      ensures Valid()
      ensures toasts == RemoveToast(old(toasts), id)
      ensures servers == old(servers) && loading == old(loading) && toastId == old(toastId)
      ensures badge == old(badge) && calls == old(calls)
    {
      RemoveToastKeepsOrder(toasts, id);
      toasts := RemoveToast(toasts, id);
    }

    /** refreshServers under the given HTTP and RPC outcomes. */
    method Refresh(http: HttpOutcome, rpc: RpcReply<seq<Server>>)
      requires Valid()
      modifies this
      ensures Valid()
      ensures servers == NextSnapshot(old(servers), http, rpc)
      ensures calls == old(calls) + RefreshCalls(http)
      ensures !loading && badge == RunningCount(servers)
      ensures toasts == old(toasts) && toastId == old(toastId)
    {
      loading := true;
      calls := calls + [FetchServers];
      if http.Response? && !(http.ok && http.body.Malformed?) {
        if http.ok {
          servers := if http.body.Value? then http.body.value else [];
        }
      } else {
        calls := calls + [ListRpc];
        if rpc.ok {
          servers := PayloadOr(rpc.payload);
        }
      }
      loading := false;
      badge := RunningCount(servers);
    }

    /** addServer: the add RPC, the toast for its reply, then a refresh. */
    method AddServer(name: string, command: string, args: seq<string>, env: map<string, string>,
                     reply: AddReply, http: HttpOutcome, rpc: RpcReply<seq<Server>>)
      requires Valid()
      modifies this
      ensures Valid()
      ensures calls == old(calls) + [AddRpc(name, command, args, env)] + RefreshCalls(http)
      ensures toastId == old(toastId) + 1
      ensures toasts == old(toasts) + [Toast(toastId, AddToast(name, reply).0, AddToast(name, reply).1)]
      ensures servers == NextSnapshot(old(servers), http, rpc)
      ensures !loading && badge == RunningCount(servers)
    {
      Send(AddRpc(name, command, args, env));
      var toast := AddToast(name, reply);
      ShowToast(toast.0, toast.1);
      Refresh(http, rpc);
    }
  }

  // ---------------------------------------------------------------------
  // One configured server's row

  /** Whether opening the row fetches: it is being opened and nothing is cached. */
  predicate FetchesTools(expanded: bool, tools: Option<seq<Tool>>) {
    !expanded && tools.None?
  }

  class ServerCard {
    const page: Page
    /** The `server` prop of the latest render. */
    var server: Server
    var expanded: bool
    var tools: Option<seq<Tool>>
    var toggling: bool

    constructor(page: Page, server: Server)
      ensures this.page == page && this.server == server
      ensures !expanded && tools == None && !toggling
    {
      this.page := page;
      this.server := server;
      expanded := false;
      tools := None;
      toggling := false;
    }

    /** toggleTools: flip the row; on opening with no cache, ask for the tools
        and cache them only when the RPC succeeds. */
    method ToggleTools(reply: RpcReply<seq<Tool>>)
      requires page.Valid()
      modifies this, page
      ensures page.Valid() && page.View() == old(page.View())
      ensures expanded == !old(expanded) && toggling == old(toggling) && server == old(server)
      ensures page.calls == old(page.calls) + (if FetchesTools(old(expanded), old(tools)) then [ToolsRpc(server.name)] else [])
      ensures tools == (if FetchesTools(old(expanded), old(tools)) && reply.ok then Some(PayloadOr(reply.payload)) else old(tools))
    {
      expanded := !expanded;
      if expanded && tools.None? {
        page.Send(ToolsRpc(server.name));
        if reply.ok {
          tools := Some(PayloadOr(reply.payload));
        }
      }
    }

    /** toggleEnabled: disable an enabled server, enable a disabled one, then refresh. */
    method ToggleEnabled(http: HttpOutcome, rpc: RpcReply<seq<Server>>)
      requires page.Valid()
      modifies this, page
      ensures page.Valid() && !toggling
      ensures page.calls == old(page.calls) + [if server.enabled then DisableRpc(server.name) else EnableRpc(server.name)] + RefreshCalls(http)
      ensures page.servers == NextSnapshot(old(page.servers), http, rpc)
      ensures page.toasts == old(page.toasts) && page.toastId == old(page.toastId)
      ensures !page.loading && page.badge == RunningCount(page.servers)
      ensures expanded == old(expanded) && tools == old(tools) && server == old(server)
    {
      toggling := true;
      var request := if server.enabled then DisableRpc(server.name) else EnableRpc(server.name);
      page.Send(request);
      page.Refresh(http, rpc);
      toggling := false;
    }

    /** restart: the restart RPC, a success toast, then a refresh. */
    method Restart(http: HttpOutcome, rpc: RpcReply<seq<Server>>)
      requires page.Valid()
      modifies page
      ensures page.Valid()
      ensures page.calls == old(page.calls) + [RestartRpc(server.name)] + RefreshCalls(http)
      ensures page.toastId == old(page.toastId) + 1
      ensures page.toasts == old(page.toasts) + [Toast(page.toastId, "Restarted \"" + server.name + "\"", Success)]
      ensures page.servers == NextSnapshot(old(page.servers), http, rpc)
      ensures !page.loading && page.badge == RunningCount(page.servers)
    {
      page.Send(RestartRpc(server.name));
      page.ShowToast("Restarted \"" + server.name + "\"", Success);
      page.Refresh(http, rpc);
    }

    /** remove: ask for confirmation; only when it is given, the remove RPC,
        a success toast and a refresh. */
    method Remove(confirmed: bool, http: HttpOutcome, rpc: RpcReply<seq<Server>>) returns (prompt: string)
      requires page.Valid()
      modifies page
      ensures page.Valid() && prompt == ConfirmRemoveText(server.name)
      ensures !confirmed ==> page.calls == old(page.calls) && page.View() == old(page.View())
      ensures confirmed ==> page.calls == old(page.calls) + [RemoveRpc(server.name)] + RefreshCalls(http)
      ensures confirmed ==> page.toastId == old(page.toastId) + 1
      ensures confirmed ==> page.toasts == old(page.toasts) + [Toast(page.toastId, "Removed \"" + server.name + "\"", Success)]
      ensures confirmed ==> page.servers == NextSnapshot(old(page.servers), http, rpc)
      ensures confirmed ==> !page.loading && page.badge == RunningCount(page.servers)
    {
      prompt := ConfirmRemoveText(server.name);
      if !confirmed {
        return;
      }
      page.Send(RemoveRpc(server.name));
      page.ShowToast("Removed \"" + server.name + "\"", Success);
      page.Refresh(http, rpc);
    }

    /** A later render of the same keyed row: Preact keeps the row's signals
        and hands it the refreshed server of the same name. */
    method Rerender(s: Server)
      requires s.name == server.name
      modifies this
      ensures server == s
      ensures expanded == old(expanded) && tools == old(tools) && toggling == old(toggling)
    {
      server := s;
    }
  }

  /** Toggling, a refresh that reports the server disabled, the row's
      re-render, and toggling again: the second click enables it. */
  method ToggleAfterRefreshScenario(name: string, state: string) returns (requests: seq<Request>)
    ensures requests == [DisableRpc(name), FetchServers, EnableRpc(name), FetchServers]
  {
    var page := new Page();
    var card := new ServerCard(page, Server(name, state, true));
    var disabled := Server(name, state, false);
    card.ToggleEnabled(Response(true, Value([disabled])), RpcReply(false, None));
    card.Rerender(page.servers[0]);
    card.ToggleEnabled(Response(true, Value([disabled])), RpcReply(false, None));
    requests := page.calls;
  }

  /** Opening a row whose fetch fails, closing it and opening it again asks
      twice; once cached, closing and reopening asks no more. */
  method ToolCacheScenario(server: Server, listed: seq<Tool>) returns (requests: seq<Request>, cached: Option<seq<Tool>>)
    ensures requests == [ToolsRpc(server.name), ToolsRpc(server.name)]
    ensures cached == Some(listed)
  {
    var page := new Page();
    var card := new ServerCard(page, server);
    card.ToggleTools(RpcReply(false, None));
    assert card.tools == None;
    card.ToggleTools(RpcReply(true, Some(listed)));
    card.ToggleTools(RpcReply(true, Some(listed)));
    assert card.tools == Some(listed);
    card.ToggleTools(RpcReply(true, None));
    card.ToggleTools(RpcReply(true, None));
    requests := page.calls;
    cached := card.tools;
  }

  // ---------------------------------------------------------------------
  // The featured catalogue

  datatype Featured = Featured(name: string, repo: string, desc: string, command: string,
                               args: seq<string>, envKeys: Option<seq<string>>, hint: Option<string>)

  const FeaturedServers: seq<Featured> := [
    Featured("filesystem", "modelcontextprotocol/servers",
             "Secure file operations with configurable access controls",
             "npx", ["-y", "@modelcontextprotocol/server-filesystem", "/tmp"],
             None, Some("Last arg is the allowed directory path")),
    Featured("memory", "modelcontextprotocol/servers",
             "Knowledge graph-based persistent memory system",
             "npx", ["-y", "@modelcontextprotocol/server-memory"],
             None, None),
    Featured("github", "modelcontextprotocol/servers",
             "GitHub API integration \U{2014} repos, issues, PRs, code search",
             "npx", ["-y", "@modelcontextprotocol/server-github"],
             Some(["GITHUB_PERSONAL_ACCESS_TOKEN"]), Some("Requires a GitHub personal access token"))
  ]

  /** `f.envKeys || f.hint`: any key list (even an empty one) or a non-empty hint. */
  predicate NeedsConfig(f: Featured) {
    f.envKeys.Some? || (f.hint.Some? && f.hint.value != [])
  }

  function EnvKeys(f: Featured): seq<string> {
    if f.envKeys.Some? then f.envKeys.value else []
  }

  /** The initial text of the arguments field. */
  function DefaultArgs(f: Featured): string {
    Join(f.args, ' ')
  }

  /** The initial text of the environment field: one `KEY=` line per key. */
  function DefaultEnv(f: Featured): string {
    Join(Placeholders(EnvKeys(f)), '\n')
  }

  /** The add request a card sends for the current field texts. */
  function FeaturedRequest(f: Featured, argsText: string, envText: string): Request {
    AddRpc(f.name, f.command, Tokens(argsText), ParseEnvText(envText))
  }

  /** An entry whose arguments are plain words and whose keys are plain names. */
  predicate WellFormedEntry(f: Featured) {
    (forall i :: 0 <= i < |f.args| ==> f.args[i] != [] && NoSpace(f.args[i]))
    && (forall i :: 0 <= i < |EnvKeys(f)| ==> WellFormedKey(EnvKeys(f)[i]))
  }

  /** For a well-formed entry, the untouched fields send the catalogue's own
      arguments and every declared key (but `__proto__`) with an empty value. */
  lemma DefaultsRoundTrip(f: Featured)
    requires WellFormedEntry(f)
    ensures FeaturedRequest(f, DefaultArgs(f), DefaultEnv(f))
      == AddRpc(f.name, f.command, f.args, map k | k in EnvKeys(f) && k != ProtoKey :: "")
  {
    TokensOfJoin(f.args);
    PlaceholderBlockParses(EnvKeys(f));
  }

  lemma FilesystemEntryWellFormed()
    ensures WellFormedEntry(FeaturedServers[0])
  {
    var args := FeaturedServers[0].args;
    assert NoSpace(args[1]);
    assert NoSpace(args[2]);
  }

  lemma MemoryEntryWellFormed()
    ensures WellFormedEntry(FeaturedServers[1])
  {
    assert NoSpace(FeaturedServers[1].args[1]);
  }

  lemma GithubEntryWellFormed()
    ensures WellFormedEntry(FeaturedServers[2])
  {
    var f := FeaturedServers[2];
    GithubKeyWellFormed();
    assert EnvKeys(f) == ["GITHUB_PERSONAL_ACCESS_TOKEN"];
    assert NoSpace(f.args[1]);
  }

  lemma GithubKeyWellFormed()
    ensures WellFormedKey("GITHUB_PERSONAL_ACCESS_TOKEN")
  {
    var key := "GITHUB_PERSONAL_ACCESS_TOKEN";
    assert '=' !in key && '\n' !in key;
  }

  lemma CatalogueWellFormed()
    ensures forall i :: 0 <= i < |FeaturedServers| ==> WellFormedEntry(FeaturedServers[i])
  {
    FilesystemEntryWellFormed();
    MemoryEntryWellFormed();
    GithubEntryWellFormed();
  }

  class FeaturedCard {
    const page: Page
    const server: Featured
    var installing: bool
    var configuring: bool
    var argsVal: string
    var envVal: string

    constructor(page: Page, server: Featured)
      ensures this.page == page && this.server == server
      ensures !installing && !configuring
      ensures argsVal == DefaultArgs(server) && envVal == DefaultEnv(server)
    {
      this.page := page;
      this.server := server;
      installing := false;
      configuring := false;
      argsVal := Join(server.args, ' ');
      envVal := Join(Placeholders(EnvKeys(server)), '\n');
    }

    function Label(): string
      reads this
    {
      FeaturedButtonLabel(installing, configuring, NeedsConfig(server))
    }

    /** The form's inputs and its Cancel button. */
    method EditArgs(text: string)
      modifies this
      ensures argsVal == text && envVal == old(envVal)
      ensures installing == old(installing) && configuring == old(configuring)
    {
      argsVal := text;
    }

    method EditEnv(text: string)
      modifies this
      ensures envVal == text && argsVal == old(argsVal)
      ensures installing == old(installing) && configuring == old(configuring)
    {
      envVal := text;
    }

    method CancelConfig()
      modifies this
      ensures !configuring && installing == old(installing)
      ensures argsVal == old(argsVal) && envVal == old(envVal)
    {
      configuring := false;
    }

    /** onAdd: a card that needs configuration first only opens its form; a
        confirmed or configuration-free card sends the add request built from
        the field texts. */
    method OnAdd(reply: AddReply, http: HttpOutcome, rpc: RpcReply<seq<Server>>)
      requires page.Valid()
      modifies this, page
      ensures page.Valid()
      ensures argsVal == old(argsVal) && envVal == old(envVal)
      ensures NeedsConfig(server) && !old(configuring) ==>
        configuring && installing == old(installing) && page.calls == old(page.calls) && page.View() == old(page.View())
      ensures !(NeedsConfig(server) && !old(configuring)) ==>
        !installing && !configuring
        && page.calls == old(page.calls) + [FeaturedRequest(server, old(argsVal), old(envVal))] + RefreshCalls(http)
        && page.toastId == old(page.toastId) + 1
        && page.toasts == old(page.toasts) + [Toast(page.toastId, AddToast(server.name, reply).0, AddToast(server.name, reply).1)]
        && page.servers == NextSnapshot(old(page.servers), http, rpc)
        && !page.loading && page.badge == RunningCount(page.servers)
    {
      if NeedsConfig(server) && !configuring {
        configuring := true;
        return;
      }
      installing := true;
      var argsList := Tokens(argsVal);
      var env := ParseEnvLines(envVal);
      page.AddServer(server.name, server.command, argsList, env, reply, http, rpc);
      installing := false;
      configuring := false;
    }
  }

  // ---------------------------------------------------------------------
  // The custom install box

  /** The add request onAdd builds from the command line, the name shown
      under it and the environment text: the first token is the command, the
      rest are the arguments, and the name is the shown one or else the command. */
  function RequestFor(cmdLine: string, detected: string, envText: string): Request
    requires !Blank(cmdLine)
  {
    TokensEmptyIffBlank(cmdLine);
    var parts := CommandTokens(cmdLine);
    AddRpc(if detected != [] then detected else parts[0], parts[0], parts[1..], ParseEnvText(envText))
  }

  /** The add request the box sends when the shown name is the one derived from the line. */
  function InstallRequest(cmdLine: string, envText: string): Request
    requires !Blank(cmdLine)
  {
    RequestFor(cmdLine, DeriveName(cmdLine), envText)
  }

  /** The request carries the command line's tokens as command and arguments,
      and a name that is never empty: the derived one, else the command. */
  lemma InstallRequestShape(cmdLine: string, envText: string)
    requires !Blank(cmdLine)
    ensures [InstallRequest(cmdLine, envText).command] + InstallRequest(cmdLine, envText).args == Tokens(cmdLine)
    ensures InstallRequest(cmdLine, envText).name != []
    ensures DeriveName(cmdLine) != [] ==> InstallRequest(cmdLine, envText).name == DeriveName(cmdLine)
    ensures DeriveName(cmdLine) == [] ==> InstallRequest(cmdLine, envText).name == Tokens(cmdLine)[0]
    ensures InstallRequest(cmdLine, envText).env == ParseEnvText(envText)
  {
    RequestShape(cmdLine, DeriveName(cmdLine), envText);
  }

  /** For whatever name is shown: the tokens split into command and
      arguments, the shown name or else the command, the parsed environment. */
  lemma RequestShape(cmdLine: string, detected: string, envText: string)
    requires !Blank(cmdLine)
    ensures [RequestFor(cmdLine, detected, envText).command] + RequestFor(cmdLine, detected, envText).args == Tokens(cmdLine)
    ensures RequestFor(cmdLine, detected, envText).name == if detected != [] then detected else Tokens(cmdLine)[0]
    ensures RequestFor(cmdLine, detected, envText).name != []
    ensures RequestFor(cmdLine, detected, envText).env == ParseEnvText(envText)
  {
    TokensEmptyIffBlank(cmdLine);
    var parts := CommandTokens(cmdLine);
    assert [parts[0]] + parts[1..] == parts;
  }

  /** The computations of onAdd: the command line's tokens split into command
      and arguments, the shown name or else the command, the parsed environment. */
  method BuildRequest(cmdLine: string, detectedName: string, envText: string) returns (request: Request)
    requires !Blank(cmdLine)
    ensures request == RequestFor(cmdLine, detectedName, envText) && request.AddRpc?
    ensures [request.command] + request.args == Tokens(cmdLine)
    ensures request.name == (if detectedName != [] then detectedName else Tokens(cmdLine)[0]) && request.name != []
    ensures request.env == ParseEnvText(envText)
  {
    RequestShape(cmdLine, detectedName, envText);
    TokensEmptyIffBlank(cmdLine);
    var parts := CommandTokens(cmdLine);
    var command := parts[0];
    var argsList := parts[1..];
    var name := if detectedName != [] then detectedName else command;
    var env := ParseEnvLines(envText);
    request := AddRpc(name, command, argsList, env);
  }

  class InstallBox {
    const page: Page
    var cmdLine: string
    var envVal: string
    var adding: bool
    var showEnv: bool
    /** The name shown under the command field, recomputed on every render:
        `deriveNameFromCommand(cmdLine.value)`. */
    var detectedName: string

    /** The shown name belongs to the current command line. */
    ghost predicate Rendered()
      reads this
    {
      detectedName == DeriveName(cmdLine)
    }

    constructor(page: Page)
      ensures this.page == page
      ensures cmdLine == [] && envVal == [] && detectedName == [] && !adding && !showEnv
    {
      this.page := page;
      cmdLine := [];
      envVal := [];
      adding := false;
      showEnv := false;
      detectedName := [];
    }

    /** `cmdLine.value.trim().length > 0`. */
    predicate CanAdd()
      reads this
    {
      Trim(cmdLine) != []
    }

    /** Typing in the command field, and the render that follows it. */
    method EditCommand(text: string)
      modifies this
      ensures cmdLine == text && Rendered()
      ensures envVal == old(envVal) && adding == old(adding) && showEnv == old(showEnv)
    {
      cmdLine := text;
      detectedName := DeriveNameFromCommand(text);
    }

    method EditEnv(text: string)
      modifies this
      ensures envVal == text && cmdLine == old(cmdLine) && detectedName == old(detectedName)
      ensures adding == old(adding) && showEnv == old(showEnv)
    {
      envVal := text;
    }

    method ToggleEnv()
      modifies this
      ensures showEnv == !old(showEnv) && cmdLine == old(cmdLine) && detectedName == old(detectedName)
      ensures envVal == old(envVal) && adding == old(adding)
    {
      showEnv := !showEnv;
    }

    /** onAdd: nothing for a blank line; otherwise the add request, then both
        fields cleared (and the shown name with them). */
    method OnAdd(reply: AddReply, http: HttpOutcome, rpc: RpcReply<seq<Server>>)
      requires page.Valid()
      modifies this, page
      ensures page.Valid() && showEnv == old(showEnv)
      ensures Blank(old(cmdLine)) ==>
        cmdLine == old(cmdLine) && envVal == old(envVal) && detectedName == old(detectedName)
        && adding == old(adding) && page.calls == old(page.calls) && page.View() == old(page.View())
      ensures !Blank(old(cmdLine)) ==>
        cmdLine == [] && envVal == [] && detectedName == [] && !adding
        && page.calls == old(page.calls) + [RequestFor(old(cmdLine), old(detectedName), old(envVal))] + RefreshCalls(http)
        && page.toastId == old(page.toastId) + 1
        && page.toasts == old(page.toasts) + [Toast(page.toastId, AddToast(RequestFor(old(cmdLine), old(detectedName), old(envVal)).name, reply).0,
                                                    AddToast(RequestFor(old(cmdLine), old(detectedName), old(envVal)).name, reply).1)]
        && page.servers == NextSnapshot(old(page.servers), http, rpc)
        && !page.loading && page.badge == RunningCount(page.servers)
      ensures old(Rendered()) && !Blank(old(cmdLine)) ==>
        page.calls == old(page.calls) + [InstallRequest(old(cmdLine), old(envVal))] + RefreshCalls(http)
    {
      TrimEmptyIffBlank(cmdLine);
      if !CanAdd() {
        return;
      }
      var request := BuildRequest(cmdLine, detectedName, envVal);
      adding := true;
      page.AddServer(request.name, request.command, request.args, request.env, reply, http, rpc);
      adding := false;
      cmdLine := [];
      envVal := [];
      detectedName := [];
    }
  }
}
