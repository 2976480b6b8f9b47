# Alibaba Cloud controller: node routes and ALB load-balancer specs, in Dafny

This project models two parts of the Alibaba Cloud cloud-controller manager.

**Node-route reconciliation** (`pkg/controller/route/manager.go`). The route controller keeps a VPC route table consistent with the pod CIDR of every node. One pass of `syncTableRoutes` does the following:

1. Lists the table's routes.
2. Deletes each route that lies in the cluster CIDR and is strictly contained in some node's pod CIDR (`containsRoute`, `conflictWithNodes`, `deleteRouteForInstance`).
3. Creates a route for every eligible node.
4. Records a warning event when creation fails. Otherwise it marks the node's network as available.

Also modelled:
- `createRouteForInstance` calls CreateRoute at most three times (at most two retries). It stops early on success or on a "not found" error.
- `getRouteTables` picks the route tables from an override list or from discovery.
- `findRoute` looks a route up in a cached list, or asks the provider.

**ALB load-balancer spec building** (`pkg/controller/ingress/reconcile/builder/albconfig_manager/model_build_load_balancer.go`):
- Generates a load balancer name from the ingress group.
- Turns the configured or discovered vSwitches into zone mappings.
- Fixes the protection settings.
- Stores the built load balancer on the model-build task.

Files:

- `wrappers.dfy`: `Option` and `Result`.
- `sequences.dfy`: filtering a sequence by a predicate, which both the name sanitizer and the route-pruning specification use.
- `strings.dfy`: the pieces of Go's `strings` and `strconv` the core uses: `strings.Contains`, `strings.Split` and decimal formatting.
- `cidr.dfy`: IPv4 networks.
  - A concrete parser and printer for CIDR text, standing in for `net.ParseCIDR` and `IPNet.String`, proved to round-trip.
  - Prefix masks and `IPNet.Contains`.
  - `containsRoute`, as a specification function `Classify` plus a method `ContainsRoute`, whose `lastIP` loop is the method `LastIP`.
- `route_manager.dfy`: the rest of `manager.go`.
  - Each call into the cloud provider or the cluster is a function parameter: the provider's answer for the call's arguments.
  - A reconciliation pass returns the ordered list of mutations it issues (`Effect`).
  - That list is specified by `PruneLog` and `CreateLog`, and lemmas state what it contains and in what order.
- `alb_load_balancer.dfy`: the ALB builder.
  - The SHA-256 hex digest and the vSwitch resolver are parameters of the task.
  - `ModelBuildTask` is a class whose `loadBalancer` field is set by `BuildAlbLoadBalancer`.

## Model

| member | source | states |
|---|---|---|
| Strings.HasSubstring | pkg/controller/route/manager.go:35 | `strings.Contains`: true exactly when `sub` occurs in `s` at some position |
| Strings.Split | pkg/controller/route/manager.go:62 | `strings.Split`: at least one piece, and no piece contains the separator |
| Strings.JoinSplit | pkg/controller/route/manager.go:62 | Joining the pieces of a split with the separator gives back the original text |
| Strings.SplitJoin | pkg/controller/route/manager.go:62 | Splitting a join of separator-free pieces gives back exactly those pieces |
| Strings.DecimalRoundTrip | pkg/controller/route/manager.go:71 | The decimal text that `%d` prints reads back as the same number |
| Cidr.ParseFormatCidr | pkg/controller/route/manager.go:207-212 | The text of an address and prefix length parses back to exactly that address and length |
| Cidr.ParseFormat | pkg/controller/route/manager.go:207-212 | `outside.String()` of a canonical network parses back to the same network |
| Cidr.FormatCidrInjective | pkg/controller/route/manager.go:212 | Different networks print as different texts, so the text comparison tells networks apart |
| Cidr.ParseCidr | pkg/controller/route/manager.go:207 | `net.ParseCIDR` on IPv4 text: it fails exactly when the text is not "a.b.c.d/n" (fields 0-255 without leading zeros, n at most 32). The network it returns has all host bits cleared, has the written prefix length and contains the written address |
| Cidr.Format | pkg/controller/route/manager.go:212 | `IPNet.String`: the text it prints reads back as exactly the network's address and prefix length |
| Cidr.Contains | pkg/controller/route/manager.go:220 | `IPNet.Contains`: a /0 network contains every address, and a /32 network contains its own address and no other |
| Cidr.EndpointsIffLonger | pkg/controller/route/manager.go:216-223 | Both the network address and the last address of `inner` lie in `outer` iff `outer` has the shorter or equal prefix and contains `inner`'s address |
| Cidr.EndpointsIffCovers | pkg/controller/route/manager.go:216-223 | For a parsed network, the two-endpoint test equals "every address of `inner` is in `outer`" |
| Cidr.LastIP | pkg/controller/route/manager.go:216-219 | The byte loop fills `lastIP` with the network's address with every host bit set, `ip \| ^mask`: the last address of the network. By `EndpointsIffCovers`, testing it together with the network address decides containment of the whole network |
| Cidr.Classify | pkg/controller/route/manager.go:202-224 | `containsRoute`'s answer: nil `outside` gives (true, true). An error comes exactly when `outside` is set and the text does not parse. `realContains` implies `containsEqual`, and the two differ only for `outside`'s own text |
| Cidr.ContainsRoute | pkg/controller/route/manager.go:202-224 | Nil `outside` gives (true, true). Unparsable text gives an error. The network's own text gives (true, false). In every case the result equals `Classify` |
| Cidr.ClassifyUnscoped | pkg/controller/route/manager.go:202-206 | With no enclosing network, every text (even unparsable text) gives (true, true) and no error |
| Cidr.ClassifyUnparsable | pkg/controller/route/manager.go:207-210 | With an enclosing network, text that does not parse as a CIDR gives an error |
| Cidr.ClassifySelf | pkg/controller/route/manager.go:212-214 | A network's own `String()` text is loosely but not strictly contained: (true, false) |
| Cidr.ClassifyCovers | pkg/controller/route/manager.go:212-223 | For any other parsed text the two flags are equal, and both are true iff every address of the candidate lies in `outside` |
| Cidr.ClassifyDisjoint | pkg/controller/route/manager.go:216-222 | A candidate sharing no address with `outside` gives (false, false) |
| Cidr.ClassifyHostBitsSet | pkg/controller/route/manager.go:212 | Text naming the same network with host bits set (e.g. "10.1.0.5/24" against 10.1.0.0/24) is not treated as equal and gives (true, true) |
| RouteManager.CreateRouteForInstance | pkg/controller/route/manager.go:18-49 | CreateRoute is called 1 to 3 times, each time with the given table, provider id and CIDR, stopping at the first success or "not found" error. On that answer: no error and that answer's route. Else exactly 3 calls, no route, and the error text with the provider id and the last error |
| RouteManager.CreateFailureMentions | pkg/controller/route/manager.go:46 | The retry-exhausted error contains the node's provider id and the last provider error |
| RouteManager.DeleteRouteForInstance | pkg/controller/route/manager.go:51-54 | One DeleteRoute for exactly the given table, provider id and CIDR; its error is returned unchanged |
| RouteManager.GetRouteTables | pkg/controller/route/manager.go:56-77 | A VpcID error aborts even with an override. An override is split on "," and ListRouteTables is not called. Otherwise the tables are listed for the VPC id and accepted only when exactly one comes back |
| RouteManager.OverrideIsSplit | pkg/controller/route/manager.go:61-62 | An override written as comma-joined ids resolves to exactly those ids, in order |
| RouteManager.OverrideTwoTables | pkg/controller/route/manager.go:61-62 | The override "rt-1,rt-2" resolves to ["rt-1", "rt-2"] without listing tables |
| RouteManager.FindCached | pkg/controller/route/manager.go:181-197 | The cache scan returns the index of the first route matching every non-empty key, or nothing when no route matches |
| RouteManager.FindRoute | pkg/controller/route/manager.go:177-200 | Both keys empty is an error. A non-empty cache gives the first matching route, or absent without error. Only an empty cache asks the provider |
| RouteManager.ConflictWithNodes | pkg/controller/route/manager.go:153-175 | True iff some node whose IPv4 CIDR reads without error and is not nil strictly contains the route; false on an empty node list |
| RouteManager.ConflictWithNodesCovers | pkg/controller/route/manager.go:153-175 | A route conflicts iff it parses, is not some node's own CIDR text, and every address of it lies in that node's pod CIDR |
| RouteManager.ClusterScope | pkg/controller/route/manager.go:85-91 | No cluster CIDR means no scope. An unparsable one is an error. Otherwise the scope is the parsed network |
| RouteManager.PruneConflictingRoutes | pkg/controller/route/manager.go:93-110 | The prune loop issues exactly `PruneLog` |
| RouteManager.AddNodeRoutes | pkg/controller/route/manager.go:111-149 | The create loop issues exactly `CreateLog` |
| RouteManager.SyncTableRoutes | pkg/controller/route/manager.go:79-151 | A ListRoute error or a cluster-CIDR parse error returns that error before any mutation. Otherwise the pass returns no error, having issued the prune log followed by the create log |
| RouteManager.PruneLogDeletesPrunable | pkg/controller/route/manager.go:93-110 | The pass deletes exactly the in-scope routes that conflict with a node, once each, in list order, each by its own provider id and destination. A failed delete does not stop the loop |
| RouteManager.UnscopedPrunesConflicts | pkg/controller/route/manager.go:93-102 | Without a cluster CIDR, a route is deleted iff it conflicts with a node |
| RouteManager.InScopeCovers | pkg/controller/route/manager.go:93-100 | A route is in scope iff it parses and is either the scope's own text or wholly inside the scope |
| RouteManager.CreateLogAddsEligible | pkg/controller/route/manager.go:111-130 | addRouteForNode is called once per eligible node, in order, with the node's CIDR text and provider id. A node is never passed when management is off, it has the exclusion label, Ready is Unknown, the provider id is empty, or the CIDR errors or is empty |
| RouteManager.CreateLogOrdered | pkg/controller/route/manager.go:130-148 | A condition update follows only a successful add whose node's NetworkUnavailable is absent or not False, and always does. A CreateRouteFailed warning event quoting the error follows every failed add, and only those |
| RouteManager.DeletionsFirst | pkg/controller/route/manager.go:93-149 | In a pass every deletion comes before any addition, event or condition update |
| AlbLoadBalancer.Sanitize | pkg/controller/ingress/reconcile/builder/albconfig_manager/model_build_load_balancer.go:108-117 | Removing every `[[:^alnum:]]` match leaves only ASCII letters and digits, and never lengthens the text |
| AlbLoadBalancer.SanitizeKeepsAlnum | pkg/controller/ingress/reconcile/builder/albconfig_manager/model_build_load_balancer.go:108-117 | Every letter and digit is kept as often as it occurs; nothing else is kept |
| AlbLoadBalancer.SanitizeAppend | pkg/controller/ingress/reconcile/builder/albconfig_manager/model_build_load_balancer.go:108-117 | The replacement works character by character: sanitizing a concatenation is concatenating the sanitized parts (so order is kept) |
| AlbLoadBalancer.SanitizeFixpoint | pkg/controller/ingress/reconcile/builder/albconfig_manager/model_build_load_balancer.go:108-117 | Text is left unchanged iff it is all ASCII letters and digits |
| AlbLoadBalancer.SanitizeIdempotent | pkg/controller/ingress/reconcile/builder/albconfig_manager/model_build_load_balancer.go:108-117 | Sanitizing twice is the same as sanitizing once |
| AlbLoadBalancer.LoadBalancerName | pkg/controller/ingress/reconcile/builder/albconfig_manager/model_build_load_balancer.go:110-119 | The name starts with "k8s-", ends with the first 10 characters of the digest of cluster id + group id, and has the length of the four parts with their dashes |
| AlbLoadBalancer.LoadBalancerNameParts | pkg/controller/ingress/reconcile/builder/albconfig_manager/model_build_load_balancer.go:110-119 | Split on '-', the name is exactly "k8s", the sanitized namespace, the sanitized name and the 10-character digest prefix |
| AlbLoadBalancer.LoadBalancerNameDetermines | pkg/controller/ingress/reconcile/builder/albconfig_manager/model_build_load_balancer.go:110-119 | Equal generated names imply equal sanitized namespaces and names |
| AlbLoadBalancer.LoadBalancerNameExample | pkg/controller/ingress/reconcile/builder/albconfig_manager/model_build_load_balancer.go:116-118 | Namespace "team_a" and name "web.app" give "k8s-teama-webapp-" followed by the digest prefix |
| AlbLoadBalancer.AppendZoneMappings | pkg/controller/ingress/reconcile/builder/albconfig_manager/model_build_load_balancer.go:65-84 | The appending loop yields one zone mapping per vSwitch, in order, copying the vSwitch id and zone id |
| AlbLoadBalancer.ModelBuildTask.GeneratedName | pkg/controller/ingress/reconcile/builder/albconfig_manager/model_build_load_balancer.go:110-119 | The task's generated name splits into "k8s", the group's sanitized namespace and name, and the digest prefix |
| AlbLoadBalancer.ModelBuildTask.SpecOutcome | pkg/controller/ingress/reconcile/builder/albconfig_manager/model_build_load_balancer.go:32-106 | With an LB id: no resolver call and no zone mappings. Without one: one call, by the configured vSwitch ids in order or by discovery when none are configured. A resolver error, or fewer than 2 vSwitches, gives an error and the empty spec; these are the only errors, and they arise even when DeletionProtectionEnabled is unset. Otherwise one mapping per vSwitch, in order. Any success has DeletionProtectionEnabled set and copies the fields, uses the configured name when non-empty, console protection with an empty reason, and an empty deletion-protection time |
| AlbLoadBalancer.ModelBuildTask.BuildAlbLoadBalancerSpec | pkg/controller/ingress/reconcile/builder/albconfig_manager/model_build_load_balancer.go:32-106 | The field-by-field construction, with its id-collecting and mapping loops, gives exactly `SpecOutcome` |
| AlbLoadBalancer.ModelBuildTask.BuildAlbLoadBalancer | pkg/controller/ingress/reconcile/builder/albconfig_manager/model_build_load_balancer.go:22-30 | On error, nothing is returned and the task's load balancer is unchanged. On success, an ApplicationLoadBalancer carrying the built spec is returned and stored on the task |
| AlbLoadBalancer.ModelBuildTask.constructor | pkg/controller/ingress/reconcile/builder/albconfig_manager/model_build_load_balancer.go:22-30 | A new task holds its inputs and no load balancer yet |
| AlbLoadBalancer.NameChoice | pkg/controller/ingress/reconcile/builder/albconfig_manager/model_build_load_balancer.go:36-44 | A non-empty configured name is used verbatim; otherwise the generated name is used |
| AlbLoadBalancer.AtLeastTwoZones | pkg/controller/ingress/reconcile/builder/albconfig_manager/model_build_load_balancer.go:51-87 | Without an LB id, a build succeeds iff it has at least two zone mappings |
| AlbLoadBalancer.ExplicitMappingsIgnoreZones | pkg/controller/ingress/reconcile/builder/albconfig_manager/model_build_load_balancer.go:53-58 | Configured mappings are resolved by their vSwitch ids alone: changing their zone ids changes nothing |

## Left out

- Backoff timing of `createBackoff` (duration, factor, jitter) is not modelled; only its limit of 3 attempts is. Sleeping and randomness have no observable effect on the result.
- Provider and cluster calls are function parameters that give the answer for each call's arguments. This covers `VpcID`, `ListRoute`, `CreateRoute` (also given the attempt number), `DeleteRoute`, `FindRoute`, `ListRouteTables`, `addRouteForNode` and the vSwitch resolver. The implementations of these collaborators are not part of this model.
- The event recorder and `updateNetworkingCondition` become entries of the returned effect list (`WarningEvent`, `UpdateNetworkCondition`), next to `DeleteRoute` and `AddRouteForNode`. Logging is dropped. Context cancellation is not modelled.
- `addRouteForNode`, `getIPv4RouteForNode`, `HasExcludeLabel`, `FindCondition` and `updateNetworkingCondition` are not part of this model. A node is a snapshot of what they report.
- The cluster CIDR, the route-table override and the route-management switch are parameters.
- IPv6 and the rest of the `net.ParseCIDR` grammar are not modelled: the model reads only dotted-quad IPv4 CIDR text, and any other text is a parse error. Where this changes behaviour, the lines below say so. A pure IPv6 route is the one case that does not: Go parses it and reports (false, false, nil) against an IPv4 network, and both callers skip the route either way.
- Cidr.ContainsRoute: an IPv4-mapped IPv6 candidate such as "::ffff:10.1.0.0/120" is a parse error in the model. Go's `IPNet.Contains` maps both of its endpoints to IPv4, so against 10.0.0.0/8 Go reports (true, true, nil).
- RouteManager.ConflictWithNodes: for the same reason, an IPv4-mapped route inside a node's pod CIDR conflicts with that node in Go but not in the model. `RouteManager.PruneConflictingRoutes` therefore never deletes such a route, where Go deletes it when it is in scope. With no cluster CIDR every route is in scope.
- RouteManager.ClusterScope: an IPv6 cluster CIDR such as "fd00::/8" is a parse error in the model, so `RouteManager.SyncTableRoutes` returns that error and issues nothing. Go accepts it. A network that is not IPv4-mapped contains no IPv4 route, so Go prunes nothing and still adds a route for every eligible node. An IPv4-mapped cluster CIDR such as "::ffff:10.0.0.0/104" behaves in Go as its IPv4 network (10.0.0.0/8), because `IPNet.String` and `IPNet.Contains` reduce it to 4 bytes. Go then prunes and adds routes as for that network, while the model returns the parse error.
- `Cidr.ParseErrorText`: the text of `net.ParseError` is modelled as "invalid CIDR address: " followed by the input. Its exact Go wording is not verified against the standard library.
- `RouteManager.CreateRouteForInstance` returns the route of the "not found" answer as the provider gave it, as the code does. The result has no route only when the provider returns none with that error.
- `ingGroup.ID.String()` is not part of this model. Its text is the task's `groupId`. SHA-256 with hex encoding is the task's `digest` parameter, a function onto 64 lower-case hex characters.
- Registering the load balancer on the stack (`alb.NewAlbLoadBalancer`) is modelled as building a value with the resource type; the stack itself is not modelled.
- Access-log and billing settings are only copied from the config into the spec. They are not modelled.
- `util.LoadBalancerModificationProtectionStatusConsoleProtection` is not part of this model. Its value is taken to be "ConsoleProtection".
- AlbLoadBalancer.ModelBuildTask.BuildAlbLoadBalancerSpec requires `DeletionProtectionEnabled` to be set unless the vSwitch resolution fails (`ResolutionFails`). The code dereferences the pointer only after the resolution has succeeded (model_build_load_balancer.go:92), so a nil pointer panics there. The model excludes exactly those inputs. `SpecOutcome` and `BuildAlbLoadBalancer` carry the same requirement.
- The error branch after `buildAlbLoadBalancerName` (model_build_load_balancer.go:40-41) is not modelled: the name builder never returns an error, so the branch is unreachable.
- The SLB SDK wrapper, the dry-run map, the service-hash tests and the SLS mock are outside the modelled core.
