/**
 * The node-route reconciliation of the route controller: it keeps a VPC route
 * table consistent with the pod CIDR of every node.
 *
 * Calls into the cloud provider and into the cluster are parameters. Each one
 * is the answer the provider gives to that call, as a function of the call's
 * arguments (and, for the retried CreateRoute, of the attempt number). The pass
 * returns the ordered list of the mutations it issues: route deletions, route
 * additions, warning events and node-condition updates.
 */
module RouteManager {
  import opened Wrappers
  import opened Strings
  import opened Cidr
  import opened Sequences

  /** One entry of a VPC route table. */
  datatype Route = Route(name: string, destinationCidr: string, providerId: string)

  datatype ConditionStatus = ConditionTrue | ConditionFalse | ConditionUnknown

  /** What getIPv4RouteForNode reports for a node: its parsed pod CIDR (possibly nil) and that CIDR's text. */
  datatype NodeRoute = NodeRoute(cidr: Option<IPNet>, text: string)

  /**
   * A snapshot of a node: its provider id, whether it carries the exclusion
   * label, the status of its Ready and NetworkUnavailable conditions (None
   * when the condition is absent) and the outcome of reading its IPv4 route.
   */
  datatype Node = Node(
    name: string,
    providerId: string,
    excluded: bool,
    ready: Option<ConditionStatus>,
    networkUnavailable: Option<ConditionStatus>,
    podRoute: Result<NodeRoute, string>)

  // ---------------------------------------------------------------------
  // createRouteForInstance and deleteRouteForInstance

  /** Number of CreateRoute attempts of the create backoff (its Steps). */
  const CreateSteps: nat := 3

  /** One answer of the provider's CreateRoute: the route it returned and the error it returned. */
  datatype CreateResponse = CreateResponse(route: Option<Route>, err: Option<string>)

  /** An answer that ends the retries: success, or an error whose text contains "not found". */
  predicate Settled(c: CreateResponse) {
    c.err.None? || HasSubstring(c.err.value, "not found")
  }

  function CreateFailure(providerId: string, inner: string): string {
    "error create route for node " + providerId + ", err: " + inner
  }

  /** One call of the provider's CreateRoute: the route table, the node's provider id and the destination CIDR. */
  datatype CreateCall = CreateCall(table: string, providerId: string, cidr: string)

  /**
   * createRouteForInstance: calls CreateRoute for the node's route until an
   * answer settles or the attempts run out. `createRoute(c, k)` is the
   * provider's answer to call `c` made as the k-th attempt; `calls` lists the
   * calls made, in order.
   */
  method CreateRouteForInstance(table: string, providerId: string, cidr: string,
                                createRoute: (CreateCall, nat) -> CreateResponse)
    returns (route: Option<Route>, err: Option<string>, calls: seq<CreateCall>)
    ensures 1 <= |calls| <= CreateSteps
    ensures forall k | 0 <= k < |calls| :: calls[k] == CreateCall(table, providerId, cidr)
    ensures forall k | 0 <= k < |calls| - 1 :: !Settled(createRoute(calls[k], k))
    ensures var lastAnswer := createRoute(CreateCall(table, providerId, cidr), |calls| - 1);
      && (Settled(lastAnswer) ==> err.None? && route == lastAnswer.route)
      && (!Settled(lastAnswer) ==>
            |calls| == CreateSteps && route.None? && err == Some(CreateFailure(providerId, lastAnswer.err.value)))
  {
    var call := CreateCall(table, providerId, cidr);
    var last := CreateResponse(None, None);
    calls := [];
    var done := false;
    while |calls| < CreateSteps && !done
      invariant 0 <= |calls| <= CreateSteps
      invariant forall k | 0 <= k < |calls| :: calls[k] == call
      invariant |calls| == 0 ==> !done
      invariant |calls| > 0 ==> last == createRoute(call, |calls| - 1) && done == Settled(last)
      invariant forall k | 0 <= k < |calls| - 1 :: !Settled(createRoute(calls[k], k))
    {
      last := createRoute(call, |calls|);
      calls := calls + [call];
      done := Settled(last);
    }
    if done {
      return last.route, None, calls;
    }
    return None, Some(CreateFailure(providerId, last.err.value)), calls;
  }

  /** The retry failure names the node's provider id and the last provider error. */
  lemma CreateFailureMentions(providerId: string, inner: string)
    ensures HasSubstring(CreateFailure(providerId, inner), providerId)
    ensures HasSubstring(CreateFailure(providerId, inner), inner)
  {
    var msg := CreateFailure(providerId, inner);
    var prefix := "error create route for node ";
    assert OccursAt(msg, providerId, |prefix|) by {
      assert msg[|prefix|..|prefix| + |providerId|] == providerId;
    }
    assert OccursAt(msg, inner, |msg| - |inner|) by {
      assert msg[|msg| - |inner|..] == inner;
    }
  }

  /** A mutation issued by a reconciliation pass, with the answer it got where it has one. */
  datatype Effect =
    | DeleteRoute(table: string, providerId: string, cidr: string, failure: Option<string>)
    | AddRouteForNode(node: Node, table: string, cidr: string, providerId: string, failure: Option<string>)
    | WarningEvent(node: Node, reason: string, message: string)
    | UpdateNetworkCondition(node: Node)

  /** deleteRouteForInstance: one DeleteRoute call for exactly this route; its error is passed back. */
  function DeleteRouteForInstance(table: string, providerId: string, cidr: string,
                                  deleteRoute: (string, string, string) -> Option<string>): (e: Effect)
    ensures e.DeleteRoute? && e.table == table && e.providerId == providerId && e.cidr == cidr
    ensures e.failure == deleteRoute(table, providerId, cidr)
  {
    DeleteRoute(table, providerId, cidr, deleteRoute(table, providerId, cidr))
  }

  // ---------------------------------------------------------------------
  // getRouteTables

  /** The tables getRouteTables settles on, and the VPC id it passed to ListRouteTables if it called it. */
  datatype TableLookup = TableLookup(tables: Result<seq<string>, string>, listedVpc: Option<string>)

  /**
   * getRouteTables. `vpcId` is the answer of VpcID(), `routeTableIds` the
   * configured override, `configVpcId` the configured VPC id that the error
   * texts quote, and `listRouteTables` the provider's answer per VPC id.
   */
  function GetRouteTables(vpcId: Result<string, string>, routeTableIds: string, configVpcId: string,
                          listRouteTables: string -> Result<seq<string>, string>): (r: TableLookup)
    ensures vpcId.Err? ==> r.tables.Err? && r.listedVpc.None?
    ensures vpcId.Ok? && routeTableIds != "" ==>
      r.listedVpc.None? && r.tables.Ok? && |r.tables.value| >= 1 && Join(r.tables.value, ',') == routeTableIds
      && forall i | 0 <= i < |r.tables.value| :: ',' !in r.tables.value[i]
    ensures vpcId.Ok? && routeTableIds == "" ==>
      r.listedVpc == Some(vpcId.value)
      && (r.tables.Ok? <==> listRouteTables(vpcId.value).Ok? && |listRouteTables(vpcId.value).value| == 1)
      && (r.tables.Ok? ==> r.tables == listRouteTables(vpcId.value))
  {
    match vpcId
    case Err(e) => TableLookup(Err("get vpc id from metadata error: " + e), None)
    case Ok(vpc) =>
      if routeTableIds != "" then
        JoinSplit(routeTableIds, ',');
        TableLookup(Ok(Split(routeTableIds, ',')), None)
      else
        var found := match listRouteTables(vpc)
          case Err(e) =>
            Err("alicloud: can not found routetable by id[" + configVpcId + "], error: " + e)
          case Ok(tables) =>
            if |tables| > 1 then
              Err("alicloud: multiple route tables found by vpc id[" + configVpcId + "], length(tables)="
                  + NatToString(|tables|))
            else if |tables| == 0 then
              Err("alicloud: no route tables found by vpc id[" + configVpcId + "]")
            else Ok(tables);
        TableLookup(found, Some(vpc))
  }

  /** An override "rt-1,rt-2" resolves to exactly ["rt-1", "rt-2"], without listing tables. */
  lemma OverrideTwoTables(vpc: string, configVpcId: string, listRouteTables: string -> Result<seq<string>, string>)
    ensures GetRouteTables(Ok(vpc), "rt-1,rt-2", configVpcId, listRouteTables)
      == TableLookup(Ok(["rt-1", "rt-2"]), None)
  {
    var parts := ["rt-1", "rt-2"];
    assert Join(parts, ',') == "rt-1,rt-2";
    SplitJoin(parts, ',');
  }

  /** An override is split into pieces that are exactly the comma-separated parts, in order. */
  lemma OverrideIsSplit(vpc: string, routeTableIds: string, configVpcId: string,
                        listRouteTables: string -> Result<seq<string>, string>, parts: seq<string>)
    requires |parts| >= 1 && forall i | 0 <= i < |parts| :: ',' !in parts[i]
    requires routeTableIds == Join(parts, ',') && routeTableIds != ""
    ensures GetRouteTables(Ok(vpc), routeTableIds, configVpcId, listRouteTables).tables == Ok(parts)
  {
    SplitJoin(parts, ',');
  }

  // ---------------------------------------------------------------------
  // findRoute

  /** A route answers a query when it matches every non-empty key of it. */
  predicate Matches(route: Route, providerId: string, cidr: string) {
    (providerId != "" ==> route.providerId == providerId) && (cidr != "" ==> route.destinationCidr == cidr)
  }

  /** The cache scan of findRoute: the first cached route matching the query, if any. */
  function FindCached(providerId: string, cidr: string, cachedRoutes: seq<Route>): (r: Option<nat>)
    requires providerId != "" || cidr != ""
    ensures r.None? ==> forall i | 0 <= i < |cachedRoutes| :: !Matches(cachedRoutes[i], providerId, cidr)
    ensures r.Some? ==> r.value < |cachedRoutes| && Matches(cachedRoutes[r.value], providerId, cidr)
    ensures r.Some? ==> forall i | 0 <= i < r.value :: !Matches(cachedRoutes[i], providerId, cidr)
  {
    if cachedRoutes == [] then None
    else
      var route := cachedRoutes[0];
      var hit :=
        if providerId != "" && cidr != "" then route.destinationCidr == cidr && route.providerId == providerId
        else if providerId != "" then route.providerId == providerId
        else route.destinationCidr == cidr;
      if hit then Some(0)
      else match FindCached(providerId, cidr, cachedRoutes[1..])
        case None => None
        case Some(i) => Some(i + 1)
  }

  /**
   * findRoute: with both keys empty it is an error; with a non-empty cache it
   * returns the first match or nothing; only with an empty cache does it ask
   * the provider (`providerFind` is the provider's FindRoute).
   */
  function FindRoute(table: string, providerId: string, cidr: string, cachedRoutes: seq<Route>,
                     providerFind: (string, string, string) -> Result<Option<Route>, string>): (r: Result<Option<Route>, string>)
    ensures providerId == "" && cidr == "" ==> r == Err("empty query condition")
    ensures (providerId != "" || cidr != "") && cachedRoutes == [] ==> r == providerFind(table, providerId, cidr)
    ensures (providerId != "" || cidr != "") && cachedRoutes != [] ==>
      r.Ok?
      && (r.value.None? <==> forall i | 0 <= i < |cachedRoutes| :: !Matches(cachedRoutes[i], providerId, cidr))
      && (r.value.Some? ==> exists k | 0 <= k < |cachedRoutes| ::
            cachedRoutes[k] == r.value.value && Matches(cachedRoutes[k], providerId, cidr)
            && forall i | 0 <= i < k :: !Matches(cachedRoutes[i], providerId, cidr))
  {
    if providerId == "" && cidr == "" then Err("empty query condition")
    else if |cachedRoutes| != 0 then
      match FindCached(providerId, cidr, cachedRoutes)
      case None => Ok(None)
      case Some(i) => Ok(Some(cachedRoutes[i]))
    else providerFind(table, providerId, cidr)
  }

  // ---------------------------------------------------------------------
  // conflictWithNodes

  /** The node has a pod CIDR that strictly contains `route`, in the sense of containsRoute's second flag. */
  predicate NodeStrictlyContains(node: Node, route: string) {
    match node.podRoute
    case Err(_) => false
    case Ok(nr) =>
      nr.cidr.Some? &&
      match Classify(nr.cidr, route)
      case Err(_) => false
      case Ok(c) => c.realContains
  }

  /**
   * conflictWithNodes: some node whose IPv4 CIDR was read without error and is
   * not nil strictly contains the route; nodes with errors or nil CIDRs are skipped.
   */
  function ConflictWithNodes(route: string, nodes: seq<Node>): (r: bool)
    ensures r <==> exists i | 0 <= i < |nodes| :: NodeStrictlyContains(nodes[i], route)
  {
    if nodes == [] then false
    else if NodeStrictlyContains(nodes[0], route) then true
    else
      var r := ConflictWithNodes(route, nodes[1..]);
      assert forall i | 1 <= i < |nodes| :: nodes[i] == nodes[1..][i - 1];
      r
  }

  /**
   * A route conflicts exactly when its text parses, differs from some node's
   * pod CIDR text, and every address of it lies in that node's pod CIDR.
   */
  lemma ConflictWithNodesCovers(route: string, nodes: seq<Node>)
    ensures ConflictWithNodes(route, nodes) <==>
      exists i | 0 <= i < |nodes| ::
        && nodes[i].podRoute.Ok? && nodes[i].podRoute.value.cidr.Some?
        && ParseCidr(route).Some?
        && route != Format(nodes[i].podRoute.value.cidr.value)
        && Covers(nodes[i].podRoute.value.cidr.value, ParseCidr(route).value)
  {
    forall i | 0 <= i < |nodes| && nodes[i].podRoute.Ok? && nodes[i].podRoute.value.cidr.Some?
      && ParseCidr(route).Some? && route != Format(nodes[i].podRoute.value.cidr.value)
      ensures NodeStrictlyContains(nodes[i], route) == Covers(nodes[i].podRoute.value.cidr.value, ParseCidr(route).value)
    {
      ClassifyCovers(nodes[i].podRoute.value.cidr.value, route);
    }
  }

  // ---------------------------------------------------------------------
  // syncTableRoutes

  /** The settings syncTableRoutes reads: the cluster CIDR text and whether node routes are managed. */
  datatype Config = Config(clusterCidr: string, configRoutes: bool)

  /** The cluster scope: none when no cluster CIDR is configured, an error when it does not parse. */
  function ClusterScope(clusterCidr: string): (r: Result<Option<IPNet>, string>)
    ensures clusterCidr == "" ==> r == Ok(None)
    ensures clusterCidr != "" ==> (r.Ok? <==> ParseCidr(clusterCidr).Some?)
    ensures clusterCidr != "" && r.Ok? ==> r.value == ParseCidr(clusterCidr)
  {
    if clusterCidr == "" then Ok(None)
    else match ParseCidr(clusterCidr)
      case None => Err("error parse cluster cidr " + clusterCidr + ": " + ParseErrorText(clusterCidr))
      case Some(n) => Ok(Some(n))
  }

  /** The route lies in the cluster scope, loosely (containsRoute's first flag, no parse error). */
  predicate InScope(scope: Option<IPNet>, dest: string) {
    match Classify(scope, dest)
    case Err(_) => false
    case Ok(c) => c.containsEqual
  }

  /** The prune loop deletes a route when it is in scope and conflicts with some node. */
  predicate Prunable(scope: Option<IPNet>, nodes: seq<Node>, route: Route) {
    InScope(scope, route.destinationCidr) && ConflictWithNodes(route.destinationCidr, nodes)
  }

  /** What the prune loop issues for one listed route. */
  function PruneStep(table: string, scope: Option<IPNet>, nodes: seq<Node>,
                     deleteRoute: (string, string, string) -> Option<string>, route: Route): seq<Effect> {
    if Prunable(scope, nodes, route)
    then [DeleteRouteForInstance(table, route.providerId, route.destinationCidr, deleteRoute)]
    else []
  }

  /** What the prune loop issues for a prefix of the listed routes. */
  function PruneLog(table: string, scope: Option<IPNet>, nodes: seq<Node>,
                    deleteRoute: (string, string, string) -> Option<string>, routes: seq<Route>): seq<Effect> {
    if routes == [] then []
    else PruneLog(table, scope, nodes, deleteRoute, routes[..|routes| - 1])
         + PruneStep(table, scope, nodes, deleteRoute, routes[|routes| - 1])
  }

  /** A node takes part in route creation in this pass. */
  predicate Eligible(configRoutes: bool, node: Node) {
    && configRoutes
    && !node.excluded
    && node.ready != Some(ConditionUnknown)
    && node.providerId != ""
    && node.podRoute.Ok?
    && node.podRoute.value.text != ""
  }

  /** Text of the CreateRouteFailed warning event. */
  function CreateFailedMessage(table: string, err: string): string {
    "Create Route Failed for " + table + " reason: " + err
  }

  /** The node-condition update is pushed unless NetworkUnavailable is already False. */
  predicate NeedsConditionUpdate(node: Node) {
    node.networkUnavailable != Some(ConditionFalse)
  }

  /** What the create loop issues for one node; `addRoute` is the outcome of addRouteForNode. */
  function NodeStep(table: string, configRoutes: bool, routes: seq<Route>,
                    addRoute: (string, string, string, Node, seq<Route>) -> Option<string>, node: Node): seq<Effect> {
    if !Eligible(configRoutes, node) then []
    else
      var cidr := node.podRoute.value.text;
      var failure := addRoute(table, cidr, node.providerId, node, routes);
      var add := AddRouteForNode(node, table, cidr, node.providerId, failure);
      if failure.Some? then [add, WarningEvent(node, "CreateRouteFailed", CreateFailedMessage(table, failure.value))]
      else if NeedsConditionUpdate(node) then [add, UpdateNetworkCondition(node)]
      else [add]
  }

  /** What the create loop issues for a prefix of the nodes. */
  function CreateLog(table: string, configRoutes: bool, routes: seq<Route>,
                     addRoute: (string, string, string, Node, seq<Route>) -> Option<string>, nodes: seq<Node>): seq<Effect> {
    if nodes == [] then []
    else CreateLog(table, configRoutes, routes, addRoute, nodes[..|nodes| - 1])
         + NodeStep(table, configRoutes, routes, addRoute, nodes[|nodes| - 1])
  }

  lemma PruneLogSnoc(table: string, scope: Option<IPNet>, nodes: seq<Node>,
                     deleteRoute: (string, string, string) -> Option<string>, routes: seq<Route>, i: nat)
    requires i < |routes|
    ensures PruneLog(table, scope, nodes, deleteRoute, routes[..i + 1])
         == PruneLog(table, scope, nodes, deleteRoute, routes[..i]) + PruneStep(table, scope, nodes, deleteRoute, routes[i])
  {
    assert routes[..i + 1][..i] == routes[..i];
  }

  lemma CreateLogSnoc(table: string, configRoutes: bool, routes: seq<Route>,
                      addRoute: (string, string, string, Node, seq<Route>) -> Option<string>, nodes: seq<Node>, j: nat)
    requires j < |nodes|
    ensures CreateLog(table, configRoutes, routes, addRoute, nodes[..j + 1])
         == CreateLog(table, configRoutes, routes, addRoute, nodes[..j]) + NodeStep(table, configRoutes, routes, addRoute, nodes[j])
  {
    assert nodes[..j + 1][..j] == nodes[..j];
  }

  /**
   * The prune loop of syncTableRoutes: each listed route that containsRoute
   * places in the cluster scope (an unparsable one is skipped) and that
   * conflicts with a node is deleted; a failed deletion is logged and skipped.
   */
  method PruneConflictingRoutes(table: string, scope: Option<IPNet>, nodes: seq<Node>, routes: seq<Route>,
                                deleteRoute: (string, string, string) -> Option<string>)
    returns (log: seq<Effect>)
    ensures log == PruneLog(table, scope, nodes, deleteRoute, routes)
  {
    log := [];
    for i := 0 to |routes|
      invariant log == PruneLog(table, scope, nodes, deleteRoute, routes[..i])
    {
      var route := routes[i];
      PruneLogSnoc(table, scope, nodes, deleteRoute, routes, i);
      var contains := ContainsRoute(scope, route.destinationCidr);
      if contains.Err? {
        continue;
      }
      if !contains.value.containsEqual {
        continue;
      }
      if ConflictWithNodes(route.destinationCidr, nodes) {
        log := log + [DeleteRouteForInstance(table, route.providerId, route.destinationCidr, deleteRoute)];
      }
    }
    assert routes[..|routes|] == routes;
  }

  /**
   * The create loop of syncTableRoutes: for each eligible node, addRouteForNode;
   * on failure a CreateRouteFailed warning event, otherwise the
   * NetworkUnavailable condition update unless it is already False.
   */
  method AddNodeRoutes(table: string, configRoutes: bool, nodes: seq<Node>, routes: seq<Route>,
                       addRoute: (string, string, string, Node, seq<Route>) -> Option<string>)
    returns (log: seq<Effect>)
    ensures log == CreateLog(table, configRoutes, routes, addRoute, nodes)
  {
    log := [];
    for j := 0 to |nodes|
      invariant log == CreateLog(table, configRoutes, routes, addRoute, nodes[..j])
    {
      var node := nodes[j];
      CreateLogSnoc(table, configRoutes, routes, addRoute, nodes, j);
      if !configRoutes || node.excluded {
        continue;
      }
      if node.ready == Some(ConditionUnknown) {
        continue;
      }
      var providerId := node.providerId;
      if providerId == "" {
        continue;
      }
      if node.podRoute.Err? || node.podRoute.value.text == "" {
        continue;
      }
      var cidr := node.podRoute.value.text;
      var failure := addRoute(table, cidr, providerId, node, routes);
      log := log + [AddRouteForNode(node, table, cidr, providerId, failure)];
      if failure.Some? {
        log := log + [WarningEvent(node, "CreateRouteFailed", CreateFailedMessage(table, failure.value))];
        continue;
      }
      if NeedsConditionUpdate(node) {
        log := log + [UpdateNetworkCondition(node)];
      }
    }
    assert nodes[..|nodes|] == nodes;
  }

  /**
   * syncTableRoutes: one reconciliation pass over `table`. `listed` is the
   * answer of ListRoute(table); `deleteRoute` the provider's DeleteRoute;
   * `addRoute` the outcome of addRouteForNode. Returns the pass's error and
   * the mutations it issued, in order.
   */
  method SyncTableRoutes(table: string, cfg: Config, nodes: seq<Node>, listed: Result<seq<Route>, string>,
                         deleteRoute: (string, string, string) -> Option<string>,
                         addRoute: (string, string, string, Node, seq<Route>) -> Option<string>)
    returns (err: Option<string>, log: seq<Effect>)
    ensures listed.Err? ==> err == Some("error listing routes: " + listed.error) && log == []
    ensures listed.Ok? && ClusterScope(cfg.clusterCidr).Err? ==>
      err == Some(ClusterScope(cfg.clusterCidr).error) && log == []
    ensures listed.Ok? && ClusterScope(cfg.clusterCidr).Ok? ==>
      err.None? &&
      log == PruneLog(table, ClusterScope(cfg.clusterCidr).value, nodes, deleteRoute, listed.value)
             + CreateLog(table, cfg.configRoutes, listed.value, addRoute, nodes)
  {
    if listed.Err? {
      return Some("error listing routes: " + listed.error), [];
    }
    var routes := listed.value;
    var scope := ClusterScope(cfg.clusterCidr);
    if scope.Err? {
      return Some(scope.error), [];
    }
    var pruned := PruneConflictingRoutes(table, scope.value, nodes, routes, deleteRoute);
    var created := AddNodeRoutes(table, cfg.configRoutes, nodes, routes, addRoute);
    return None, pruned + created;
  }

  // ---------------------------------------------------------------------
  // What a pass does, stated over its whole log

  function PrunableTest(scope: Option<IPNet>, nodes: seq<Node>): Route -> bool {
    route => Prunable(scope, nodes, route)
  }

  /** The routes the prune loop deletes, in list order. */
  function PrunableRoutes(scope: Option<IPNet>, nodes: seq<Node>, routes: seq<Route>): seq<Route> {
    Filter(PrunableTest(scope, nodes), routes)
  }

  /** The deletions issued for a list of routes, one per route, in order. */
  function Deletions(table: string, deleteRoute: (string, string, string) -> Option<string>, routes: seq<Route>): seq<Effect> {
    if routes == [] then []
    else [DeleteRouteForInstance(table, routes[0].providerId, routes[0].destinationCidr, deleteRoute)]
         + Deletions(table, deleteRoute, routes[1..])
  }

  lemma {:induction false} DeletionsAppend(table: string, deleteRoute: (string, string, string) -> Option<string>,
                                           a: seq<Route>, b: seq<Route>)
    ensures Deletions(table, deleteRoute, a + b) == Deletions(table, deleteRoute, a) + Deletions(table, deleteRoute, b)
  {
    if a == [] {
      assert a + b == b;
    } else {
      assert (a + b)[1..] == a[1..] + b;
      DeletionsAppend(table, deleteRoute, a[1..], b);
    }
  }

  /** One route is deleted exactly when it is prunable. */
  lemma PruneStepDeletes(table: string, scope: Option<IPNet>, nodes: seq<Node>,
                         deleteRoute: (string, string, string) -> Option<string>, route: Route)
    ensures PruneStep(table, scope, nodes, deleteRoute, route)
         == Deletions(table, deleteRoute, PrunableRoutes(scope, nodes, [route]))
  {
    FilterSingle(PrunableTest(scope, nodes), route);
    assert [route][1..] == [];
  }

  /** Deleting the kept routes of a list extended by one route: those of the list, then that route's. */
  lemma DeletionsFilterSnoc(table: string, deleteRoute: (string, string, string) -> Option<string>,
                            keep: Route -> bool, init: seq<Route>, last: Route)
    ensures Deletions(table, deleteRoute, Filter(keep, init + [last]))
         == Deletions(table, deleteRoute, Filter(keep, init)) + Deletions(table, deleteRoute, Filter(keep, [last]))
  {
    FilterAppend(keep, init, [last]);
    DeletionsAppend(table, deleteRoute, Filter(keep, init), Filter(keep, [last]));
  }

  /** The last listed route adds the deletions of its own prunable part to the prune log. */
  lemma PruneLogLastDeletes(table: string, scope: Option<IPNet>, nodes: seq<Node>,
                            deleteRoute: (string, string, string) -> Option<string>, routes: seq<Route>)
    requires routes != []
    ensures PruneLog(table, scope, nodes, deleteRoute, routes)
         == PruneLog(table, scope, nodes, deleteRoute, routes[..|routes| - 1])
            + Deletions(table, deleteRoute, PrunableRoutes(scope, nodes, [routes[|routes| - 1]]))
  {
    PruneStepDeletes(table, scope, nodes, deleteRoute, routes[|routes| - 1]);
  }

  /**
   * The prune loop deletes exactly the in-scope routes that conflict with a
   * node, each once, in list order, addressed to the route's own provider id
   * and destination; a failed deletion does not stop the loop.
   */
  lemma {:induction false} PruneLogDeletesPrunable(table: string, scope: Option<IPNet>, nodes: seq<Node>,
                                                   deleteRoute: (string, string, string) -> Option<string>, routes: seq<Route>)
    ensures PruneLog(table, scope, nodes, deleteRoute, routes)
         == Deletions(table, deleteRoute, PrunableRoutes(scope, nodes, routes))
    decreases |routes|
  {
    if routes != [] {
      var init, last := routes[..|routes| - 1], routes[|routes| - 1];
      assert routes == init + [last];
      PruneLogLastDeletes(table, scope, nodes, deleteRoute, routes);
      PruneLogDeletesPrunable(table, scope, nodes, deleteRoute, init);
      DeletionsFilterSnoc(table, deleteRoute, PrunableTest(scope, nodes), init, last);
    }
  }

  /** Without a cluster CIDR every route is in scope, so every route that conflicts with a node is deleted. */
  lemma UnscopedPrunesConflicts(nodes: seq<Node>, route: Route)
    ensures Prunable(None, nodes, route) <==> ConflictWithNodes(route.destinationCidr, nodes)
  {
    ClassifyUnscoped(route.destinationCidr);
  }

  /** A route is in a cluster scope when it is the scope's own text or every address of it is in the scope. */
  lemma InScopeCovers(scope: IPNet, dest: string)
    requires Canonical(scope)
    ensures InScope(Some(scope), dest) <==>
      ParseCidr(dest).Some? && (dest == Format(scope) || Covers(scope, ParseCidr(dest).value))
  {
    if ParseCidr(dest).Some? && dest != Format(scope) {
      ClassifyCovers(scope, dest);
    }
    if dest == Format(scope) {
      ClassifySelf(scope);
    }
  }

  predicate IsAddition(e: Effect) {
    e.AddRouteForNode?
  }

  /** The AddRouteForNode calls of a log, in order. */
  function Additions(log: seq<Effect>): seq<Effect> {
    Filter(IsAddition, log)
  }

  function EligibleTest(configRoutes: bool): Node -> bool {
    node => Eligible(configRoutes, node)
  }

  /** The nodes the create loop adds routes for, in order. */
  function EligibleNodes(configRoutes: bool, nodes: seq<Node>): (r: seq<Node>)
    ensures forall i | 0 <= i < |r| :: Eligible(configRoutes, r[i])
  {
    var r := Filter(EligibleTest(configRoutes), nodes);
    assert forall i | 0 <= i < |r| :: EligibleTest(configRoutes)(r[i]);
    r
  }

  /** The addRouteForNode call made for an eligible node. */
  function AdditionFor(table: string, routes: seq<Route>,
                       addRoute: (string, string, string, Node, seq<Route>) -> Option<string>, node: Node): Effect
    requires node.podRoute.Ok?
  {
    AddRouteForNode(node, table, node.podRoute.value.text, node.providerId,
                    addRoute(table, node.podRoute.value.text, node.providerId, node, routes))
  }

  function AdditionsFor(table: string, configRoutes: bool, routes: seq<Route>,
                        addRoute: (string, string, string, Node, seq<Route>) -> Option<string>, nodes: seq<Node>): seq<Effect>
    requires forall i | 0 <= i < |nodes| :: Eligible(configRoutes, nodes[i])
  {
    if nodes == [] then []
    else
      assert Eligible(configRoutes, nodes[0]);
      assert forall i | 0 <= i < |nodes[1..]| :: nodes[1..][i] == nodes[i + 1];
      [AdditionFor(table, routes, addRoute, nodes[0])] + AdditionsFor(table, configRoutes, routes, addRoute, nodes[1..])
  }

  lemma {:induction false} AdditionsForAppend(table: string, configRoutes: bool, routes: seq<Route>,
                                              addRoute: (string, string, string, Node, seq<Route>) -> Option<string>,
                                              a: seq<Node>, b: seq<Node>)
    requires forall i | 0 <= i < |a| :: Eligible(configRoutes, a[i])
    requires forall i | 0 <= i < |b| :: Eligible(configRoutes, b[i])
    ensures AdditionsFor(table, configRoutes, routes, addRoute, a + b)
         == AdditionsFor(table, configRoutes, routes, addRoute, a) + AdditionsFor(table, configRoutes, routes, addRoute, b)
  {
    if a == [] {
      assert a + b == b;
    } else {
      assert (a + b)[1..] == a[1..] + b;
      AdditionsForAppend(table, configRoutes, routes, addRoute, a[1..], b);
    }
  }

  /** One node contributes its addRouteForNode call when it is eligible, and nothing otherwise. */
  lemma NodeStepAdditions(table: string, configRoutes: bool, routes: seq<Route>,
                          addRoute: (string, string, string, Node, seq<Route>) -> Option<string>, node: Node)
    ensures Additions(NodeStep(table, configRoutes, routes, addRoute, node))
         == AdditionsFor(table, configRoutes, routes, addRoute, EligibleNodes(configRoutes, [node]))
  {
    FilterSingle(EligibleTest(configRoutes), node);
    var step := NodeStep(table, configRoutes, routes, addRoute, node);
    if Eligible(configRoutes, node) {
      assert EligibleNodes(configRoutes, [node]) == [node];
      assert step[0] == AdditionFor(table, routes, addRoute, node);
      assert Additions(step[1..]) == [] by {
        if step[1..] != [] {
          FilterSingle(IsAddition, step[1..][0]);
          assert step[1..] == [step[1..][0]];
        }
      }
      assert step == [step[0]] + step[1..];
      FilterAppend(IsAddition, [step[0]], step[1..]);
      FilterSingle(IsAddition, step[0]);
      assert AdditionsFor(table, configRoutes, routes, addRoute, [node])
          == [AdditionFor(table, routes, addRoute, node)] + AdditionsFor(table, configRoutes, routes, addRoute, []);
    }
  }

  /**
   * The create loop calls addRouteForNode exactly once for each eligible node,
   * in node order, with the node's own pod CIDR text and provider id; nodes
   * with management off, the exclusion label, Ready Unknown, no provider id,
   * or no readable pod CIDR are never passed to it.
   */
  lemma {:induction false} CreateLogAddsEligible(table: string, configRoutes: bool, routes: seq<Route>,
                                                 addRoute: (string, string, string, Node, seq<Route>) -> Option<string>,
                                                 nodes: seq<Node>)
    ensures Additions(CreateLog(table, configRoutes, routes, addRoute, nodes))
         == AdditionsFor(table, configRoutes, routes, addRoute, EligibleNodes(configRoutes, nodes))
    decreases |nodes|
  {
    if nodes != [] {
      var init, last := nodes[..|nodes| - 1], nodes[|nodes| - 1];
      assert nodes == init + [last];
      CreateLogAddsEligible(table, configRoutes, routes, addRoute, init);
      FilterAppend(EligibleTest(configRoutes), init, [last]);
      FilterAppend(IsAddition, CreateLog(table, configRoutes, routes, addRoute, init), NodeStep(table, configRoutes, routes, addRoute, last));
      AdditionsForAppend(table, configRoutes, routes, addRoute, EligibleNodes(configRoutes, init), EligibleNodes(configRoutes, [last]));
      NodeStepAdditions(table, configRoutes, routes, addRoute, last);
    }
  }

  /**
   * The entry at `k` is justified by the entry before it: a condition update
   * follows a successful addition for the same node whose NetworkUnavailable
   * condition is absent or not False, and a warning event follows a failed
   * addition for the same node and quotes its error.
   */
  ghost predicate JustifiedAt(table: string, log: seq<Effect>, k: nat)
    requires k < |log|
  {
    && (log[k].UpdateNetworkCondition? ==>
          k > 0 && log[k - 1].AddRouteForNode? && log[k - 1].node == log[k].node
          && log[k - 1].failure.None? && NeedsConditionUpdate(log[k].node))
    && (log[k].WarningEvent? ==>
          k > 0 && log[k - 1].AddRouteForNode? && log[k - 1].node == log[k].node
          && log[k - 1].failure.Some?
          && log[k].reason == "CreateRouteFailed"
          && log[k].message == CreateFailedMessage(table, log[k - 1].failure.value))
  }

  ghost predicate CreateLogJustified(table: string, log: seq<Effect>) {
    forall k: nat | k < |log| :: JustifiedAt(table, log, k)
  }

  /**
   * Conversely, an addition at `k` that succeeded for a node whose condition is
   * not already False is followed by the condition update, a failed one by a
   * warning event for the same node, and any other by the next node's entries.
   */
  ghost predicate CompleteAt(log: seq<Effect>, k: nat)
    requires k < |log|
  {
    log[k].AddRouteForNode? ==>
      && (log[k].failure.None? && NeedsConditionUpdate(log[k].node) ==>
            k + 1 < |log| && log[k + 1] == UpdateNetworkCondition(log[k].node))
      && (log[k].failure.Some? ==>
            k + 1 < |log| && log[k + 1].WarningEvent? && log[k + 1].node == log[k].node)
      && (log[k].failure.None? && !NeedsConditionUpdate(log[k].node) ==>
            k + 1 == |log| || log[k + 1].AddRouteForNode?)
  }

  ghost predicate CreateLogComplete(log: seq<Effect>) {
    forall k: nat | k < |log| :: CompleteAt(log, k)
  }

  lemma NodeStepShape(table: string, configRoutes: bool, routes: seq<Route>,
                      addRoute: (string, string, string, Node, seq<Route>) -> Option<string>, node: Node)
    ensures var step := NodeStep(table, configRoutes, routes, addRoute, node);
      && CreateLogJustified(table, step) && CreateLogComplete(step)
      && (step != [] ==> step[0].AddRouteForNode?)
  {
    var step := NodeStep(table, configRoutes, routes, addRoute, node);
    forall k: nat | k < |step|
      ensures JustifiedAt(table, step, k) && CompleteAt(step, k)
    {
    }
  }

  lemma JustifiedAppend(table: string, a: seq<Effect>, b: seq<Effect>)
    requires CreateLogJustified(table, a) && CreateLogJustified(table, b)
    requires b != [] ==> b[0].AddRouteForNode?
    ensures CreateLogJustified(table, a + b)
  {
    var log := a + b;
    forall k: nat | k < |log|
      ensures JustifiedAt(table, log, k)
    {
      if k < |a| {
        assert JustifiedAt(table, a, k);
        assert log[k] == a[k];
        if k > 0 {
          assert log[k - 1] == a[k - 1];
        }
      } else {
        assert JustifiedAt(table, b, k - |a|);
        assert log[k] == b[k - |a|];
        if k > |a| {
          assert log[k - 1] == b[k - 1 - |a|];
        }
      }
    }
  }

  lemma CompleteAppend(a: seq<Effect>, b: seq<Effect>)
    requires CreateLogComplete(a) && CreateLogComplete(b)
    requires b != [] ==> b[0].AddRouteForNode?
    ensures CreateLogComplete(a + b)
  {
    var log := a + b;
    forall k: nat | k < |log|
      ensures CompleteAt(log, k)
    {
      if k >= |a| {
        assert CompleteAt(b, k - |a|);
        assert log[k] == b[k - |a|];
        if k + 1 < |log| {
          assert log[k + 1] == b[k + 1 - |a|];
        }
      } else {
        assert CompleteAt(a, k);
        assert log[k] == a[k];
        if k + 1 < |a| {
          assert log[k + 1] == a[k + 1];
        } else if k + 1 < |log| {
          assert log[k + 1] == b[0];
        }
      }
    }
  }

  /**
   * The condition update happens only after a successful addition, and only
   * when NetworkUnavailable is absent or not False; a failed addition is
   * followed by its warning event; and both hold in the other direction too.
   */
  lemma {:induction false} CreateLogOrdered(table: string, configRoutes: bool, routes: seq<Route>,
                                            addRoute: (string, string, string, Node, seq<Route>) -> Option<string>,
                                            nodes: seq<Node>)
    ensures var log := CreateLog(table, configRoutes, routes, addRoute, nodes);
      CreateLogJustified(table, log) && CreateLogComplete(log)
    decreases |nodes|
  {
    if nodes != [] {
      var init, last := nodes[..|nodes| - 1], nodes[|nodes| - 1];
      var a := CreateLog(table, configRoutes, routes, addRoute, init);
      var b := NodeStep(table, configRoutes, routes, addRoute, last);
      CreateLogOrdered(table, configRoutes, routes, addRoute, init);
      NodeStepShape(table, configRoutes, routes, addRoute, last);
      JustifiedAppend(table, a, b);
      CompleteAppend(a, b);
      assert nodes == init + [last];
    }
  }

  /** The prune loop issues nothing but deletions. */
  lemma {:induction false} PruneLogOnlyDeletes(table: string, scope: Option<IPNet>, nodes: seq<Node>,
                                               deleteRoute: (string, string, string) -> Option<string>, routes: seq<Route>)
    ensures forall k | 0 <= k < |PruneLog(table, scope, nodes, deleteRoute, routes)| ::
      PruneLog(table, scope, nodes, deleteRoute, routes)[k].DeleteRoute?
    decreases |routes|
  {
    if routes != [] {
      PruneLogOnlyDeletes(table, scope, nodes, deleteRoute, routes[..|routes| - 1]);
    }
  }

  /** The create loop issues no deletion. */
  lemma {:induction false} CreateLogNoDeletes(table: string, configRoutes: bool, routes: seq<Route>,
                                              addRoute: (string, string, string, Node, seq<Route>) -> Option<string>,
                                              nodes: seq<Node>)
    ensures forall k | 0 <= k < |CreateLog(table, configRoutes, routes, addRoute, nodes)| ::
      !CreateLog(table, configRoutes, routes, addRoute, nodes)[k].DeleteRoute?
    decreases |nodes|
  {
    if nodes != [] {
      CreateLogNoDeletes(table, configRoutes, routes, addRoute, nodes[..|nodes| - 1]);
    }
  }

  /** In a pass, every deletion is issued before any addition, event or condition update. */
  lemma DeletionsFirst(table: string, scope: Option<IPNet>, configRoutes: bool, nodes: seq<Node>, routes: seq<Route>,
                       deleteRoute: (string, string, string) -> Option<string>,
                       addRoute: (string, string, string, Node, seq<Route>) -> Option<string>)
    ensures var log := PruneLog(table, scope, nodes, deleteRoute, routes) + CreateLog(table, configRoutes, routes, addRoute, nodes);
      forall i, j | 0 <= i < j < |log| :: log[j].DeleteRoute? ==> log[i].DeleteRoute?
  {
    PruneLogOnlyDeletes(table, scope, nodes, deleteRoute, routes);
    CreateLogNoDeletes(table, configRoutes, routes, addRoute, nodes);
  }
}
