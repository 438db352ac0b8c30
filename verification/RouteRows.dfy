/** Declared routes and what a gateway serves, joined into the rows the routes screen shows. */
module RouteRows {
  import opened Sorting
  import opened Wrappers

  datatype Listener = Listener(id: string, rules: seq<string>)

  /** What the gateway serves: listeners, each with the routes its rules came from. */
  type Served = seq<Listener>

  datatype Acceptance = NotRuled | Accepted | Rejected

  datatype Parent = Parent(
    gateway: string, section: Option<string>, acceptance: Acceptance, refsResolved: bool,
    reason: Option<string>, message: Option<string>,
    refsReason: Option<string>, refsMessage: Option<string>)

  datatype Declared = Declared(id: string, namespace: string, parents: seq<Parent>)

  // The index.

  /** The part before the last slash; empty when there is none. */
  function GatewayOf(id: string): string {
    if id == "" then ""
    else if id[|id| - 1] == '/' then id[..|id| - 1]
    else GatewayOf(id[..|id| - 1])
  }

  datatype Index = Index(byListener: map<string, set<string>>, byGateway: map<string, set<string>>)

  function At(m: map<string, set<string>>, key: string): set<string> {
    if key in m then m[key] else {}
  }

  function AddRule(index: Index, listener: string, route: string): Index {
    var gateway := GatewayOf(listener);
    Index(
      index.byListener[listener := At(index.byListener, listener) + {route}],
      index.byGateway[gateway := At(index.byGateway, gateway) + {route}])
  }

  function AddRules(index: Index, listener: string, rules: seq<string>): Index {
    if rules == [] then index
    else AddRule(AddRules(index, listener, rules[..|rules| - 1]), listener, rules[|rules| - 1])
  }

  function IndexOf(served: Served): Index {
    if served == [] then Index(map[], map[])
    else
      var last := served[|served| - 1];
      AddRules(IndexOf(served[..|served| - 1]), last.id, last.rules)
  }

  /** Fills both maps in one pass over the rules of every listener. */
  method BuildIndex(served: Served) returns (index: Index)
    ensures index == IndexOf(served)
  {
    var byListener, byGateway := map[], map[];
    for i := 0 to |served|
      invariant Index(byListener, byGateway) == IndexOf(served[..i])
    {
      var listener := served[i];
      var gateway := GatewayOf(listener.id);
      for j := 0 to |listener.rules|
        invariant Index(byListener, byGateway) == AddRules(IndexOf(served[..i]), listener.id, listener.rules[..j])
      {
        assert listener.rules[..j + 1][..j] == listener.rules[..j];
        byListener := byListener[listener.id := At(byListener, listener.id) + {listener.rules[j]}];
        byGateway := byGateway[gateway := At(byGateway, gateway) + {listener.rules[j]}];
      }
      assert listener.rules[..|listener.rules|] == listener.rules;
      assert served[..i + 1][..i] == served[..i];
    }
    assert served[..|served|] == served;
    return Index(byListener, byGateway);
  }

  predicate Serves(index: Index, parent: Parent, route: string) {
    match parent.section
    case Some(section) => route in At(index.byListener, parent.gateway + "/" + section)
    case None => route in At(index.byGateway, parent.gateway)
  }

  // The index against a scan.

  /** Some listener for which `belongs` holds has a rule for the route. */
  predicate Carried(served: Served, belongs: string -> bool, route: string) {
    exists i :: 0 <= i < |served| && belongs(served[i].id) && route in served[i].rules
  }

  /** A listener of the Gateway, and the one named when the attachment names one. */
  predicate Belongs(parent: Parent, listener: string) {
    match parent.section
    case Some(section) => listener == parent.gateway + "/" + section
    case None => GatewayOf(listener) == parent.gateway
  }

  function Belonging(parent: Parent): string -> bool {
    id => Belongs(parent, id)
  }

  lemma {:induction false} RulesAreIndexed(
    index: Index, listener: string, rules: seq<string>, key: string, route: string)
    ensures
      var after := AddRules(index, listener, rules);
      && (route in At(after.byListener, key) <==>
            route in At(index.byListener, key) || (key == listener && route in rules))
      && (route in At(after.byGateway, key) <==>
            route in At(index.byGateway, key) || (key == GatewayOf(listener) && route in rules))
  {
    if rules != [] {
      RulesAreIndexed(index, listener, rules[..|rules| - 1], key, route);
      assert rules == rules[..|rules| - 1] + [rules[|rules| - 1]];
    }
  }

  lemma {:induction false} CarriedOneMore(served: Served, belongs: string -> bool, route: string)
    requires served != []
    ensures
      var last := served[|served| - 1];
      Carried(served, belongs, route) <==>
      Carried(served[..|served| - 1], belongs, route) || (belongs(last.id) && route in last.rules)
  {
    var front, last := served[..|served| - 1], served[|served| - 1];
    if Carried(front, belongs, route) {
      var i :| 0 <= i < |front| && belongs(front[i].id) && route in front[i].rules;
      assert served[i] == front[i];
    }
    if Carried(served, belongs, route) && !(belongs(last.id) && route in last.rules) {
      var i :| 0 <= i < |served| && belongs(served[i].id) && route in served[i].rules;
      assert front[i] == served[i];
    }
  }

  /** A lookup answers what a scan of every rule of every listener would. */
  lemma {:induction false} IndexServesAsScanned(served: Served, parent: Parent, route: string)
    ensures Serves(IndexOf(served), parent, route) <==> Carried(served, Belonging(parent), route)
  {
    if served != [] {
      var front, last := served[..|served| - 1], served[|served| - 1];
      IndexServesAsScanned(front, parent, route);
      CarriedOneMore(served, Belonging(parent), route);
      var key := if parent.section.Some? then parent.gateway + "/" + parent.section.value else parent.gateway;
      RulesAreIndexed(IndexOf(front), last.id, last.rules, key, route);
    }
  }

  // Which Gateway a listener belongs to.

  lemma LastIsInTail(id: string, n: nat)
    requires n < |id|
    ensures id[|id| - 1] in id[n..]
  {
    assert id[n..][|id| - 1 - n] == id[|id| - 1];
  }

  /** A listener is a Gateway's when its id goes on after that Gateway and a slash with no slash
      more; an id without a slash is nobody's. */
  lemma {:induction false} GatewayOfIff(id: string, gateway: string)
    ensures GatewayOf(id) == gateway <==>
            || (gateway + "/" <= id && '/' !in id[|gateway| + 1..])
            || (gateway == "" && '/' !in id)
  {
    if id != "" {
      var front, last := id[..|id| - 1], id[|id| - 1];
      assert id == front + [last];
      if last == '/' {
        assert front + "/" == id;
        if |gateway| + 1 < |id| {
          LastIsInTail(id, |gateway| + 1);
        }
      } else {
        GatewayOfIff(front, gateway);
        assert gateway + "/" <= id <==> gateway + "/" <= front;
        if gateway + "/" <= id {
          assert id[|gateway| + 1..] == front[|gateway| + 1..] + [last];
        }
      }
    }
  }

  /** The overview's way to tell: the id starts with the Gateway and a slash. */
  predicate StartsWithin(gateway: string, listener: string) {
    gateway + "/" <= listener
  }

  /** The two tests agree about a listener unless it goes on after the Gateway's slash with another,
      or neither has a slash and the Gateway is the empty one. */
  lemma {:induction false} AttributionAgreesIff(gateway: string, listener: string)
    ensures (GatewayOf(listener) == gateway <==> StartsWithin(gateway, listener)) <==>
            && !(StartsWithin(gateway, listener) && '/' in listener[|gateway| + 1..])
            && !(gateway == "" && '/' !in listener)
  {
    GatewayOfIff(listener, gateway);
    if StartsWithin(gateway, listener) {
      assert listener[|gateway|] == '/';
    }
  }

  predicate IsListenerId(id: string) {
    exists a, b :: 0 <= a < b < |id| && IsSplitAt(id, a, b)
  }

  /** `namespace/gateway/listener`, with its two slashes. */
  predicate IsSplitAt(id: string, a: nat, b: nat)
    requires a < b < |id|
  {
    forall k :: 0 <= k < |id| ==> (id[k] == '/' <==> k == a || k == b)
  }

  predicate IsGatewayId(id: string) {
    exists a :: 0 <= a < |id| && IsSlashAt(id, a)
  }

  /** `namespace/gateway`, with its one slash. */
  predicate IsSlashAt(id: string, a: nat)
    requires a < |id|
  {
    forall k :: 0 <= k < |id| ==> (id[k] == '/' <==> k == a)
  }

  /** For well-formed ids, the screen and the overview attribute every listener alike. */
  lemma {:induction false} WellFormedAttribution(gateway: string, listener: string)
    requires IsGatewayId(gateway) && IsListenerId(listener)
    ensures GatewayOf(listener) == gateway <==> StartsWithin(gateway, listener)
  {
    var g :| 0 <= g < |gateway| && IsSlashAt(gateway, g);
    var a, b :| 0 <= a < b < |listener| && IsSplitAt(listener, a, b);
    GatewayOfIff(listener, gateway);
    if StartsWithin(gateway, listener) {
      assert listener[|gateway|] == '/' && listener[g] == gateway[g] == '/';
      assert a == g && b == |gateway|;
      var rest := listener[|gateway| + 1..];
      forall k | 0 <= k < |rest| ensures rest[k] != '/' {
        assert rest[k] == listener[k + |gateway| + 1];
      }
    } else {
      assert gateway != "";
    }
  }

  lemma {:induction false} CarriedAlike(served: Served, belongs: string -> bool, other: string -> bool, route: string)
    requires forall i :: 0 <= i < |served| ==> belongs(served[i].id) == other(served[i].id)
    ensures Carried(served, belongs, route) == Carried(served, other, route)
  {
  }

  /** So the screen says a Gateway serves a route exactly when the overview shows a listener of it
      that carries the route. */
  lemma {:induction false} ScreenAgreesWithOverview(served: Served, parent: Parent, route: string)
    requires parent.section.None? && IsGatewayId(parent.gateway)
    requires forall i :: 0 <= i < |served| ==> IsListenerId(served[i].id)
    ensures Serves(IndexOf(served), parent, route) <==>
            Carried(served, (id: string) => StartsWithin(parent.gateway, id), route)
  {
    IndexServesAsScanned(served, parent, route);
    forall i | 0 <= i < |served| ensures Belonging(parent)(served[i].id) == StartsWithin(parent.gateway, served[i].id) {
      WellFormedAttribution(parent.gateway, served[i].id);
    }
    CarriedAlike(served, Belonging(parent), (id: string) => StartsWithin(parent.gateway, id), route);
  }

  // The rows.

  datatype State = IsServed | Refused | Pending | Missing | Unresolved | Unknown | Mixed

  datatype ParentRow = ParentRow(
    gateway: string, section: Option<string>, state: State, reason: Option<string>, message: Option<string>)

  datatype Row = Row(id: string, namespace: string, state: State, parents: seq<ParentRow>)

  function StateOf(parent: Parent, route: string, index: Option<Index>): State {
    if parent.acceptance.NotRuled? then Pending
    else if parent.acceptance.Rejected? then Refused
    else if !parent.refsResolved then Unresolved
    else if index.None? then Unknown
    else if Serves(index.value, parent, route) then IsServed
    else Missing
  }

  function ParentRowOf(parent: Parent, route: string, index: Option<Index>): ParentRow {
    var refsExplain := parent.acceptance.Accepted? && !parent.refsResolved;
    ParentRow(
      parent.gateway, parent.section, StateOf(parent, route, index),
      if refsExplain then parent.refsReason else parent.reason,
      if refsExplain then parent.refsMessage else parent.message)
  }

  function ParentRows(parents: seq<Parent>, route: string, index: Option<Index>): (rows: seq<ParentRow>)
    ensures |rows| == |parents| && forall i :: 0 <= i < |rows| ==> rows[i] == ParentRowOf(parents[i], route, index)
  {
    seq(|parents|, i requires 0 <= i < |parents| => ParentRowOf(parents[i], route, index))
  }

  function Summarise(parents: seq<ParentRow>): State {
    if parents == [] then Pending
    else if forall i :: 0 <= i < |parents| ==> parents[i].state == parents[0].state then parents[0].state
    else Mixed
  }

  function RowOf(route: Declared, index: Option<Index>): Row {
    var parents := ParentRows(route.parents, route.id, index);
    Row(route.id, route.namespace, Summarise(parents), parents)
  }

  predicate IdLe(a: Declared, b: Declared) {
    TextLe(a.id, b.id)
  }

  /** One row a route, by id; `served` is none when the gateway could not be reached. */
  function Join(declared: seq<Declared>, served: Option<Served>): (rows: seq<Row>)
    ensures
      var sorted, index := SortBy(declared, IdLe), if served.Some? then Some(IndexOf(served.value)) else None;
      |rows| == |sorted| && forall i :: 0 <= i < |rows| ==> rows[i] == RowOf(sorted[i], index)
  {
    var sorted := SortBy(declared, IdLe);
    var index := if served.Some? then Some(IndexOf(served.value)) else None;
    seq(|sorted|, i requires 0 <= i < |sorted| => RowOf(sorted[i], index))
  }

  lemma IdOrder()
    ensures IsOrder(IdLe)
  {
    forall a, b ensures IdLe(a, b) || IdLe(b, a) {
      TextLeTotal(a.id, b.id);
    }
    forall a, b, c | IdLe(a, b) && IdLe(b, c) ensures IdLe(a, c) {
      TextLeTransitive(a.id, b.id, c.id);
    }
  }

  function Sources(declared: seq<Declared>): seq<Declared> {
    SortBy(declared, IdLe)
  }

  /** The rows are the declared routes, each once, in rising order of id, and routes of one id in the
      order they were declared in. */
  lemma {:induction false} RowsAreTheRoutes(declared: seq<Declared>, served: Option<Served>, like: Declared)
    ensures |Join(declared, served)| == |Sources(declared)|
    ensures forall i :: 0 <= i < |Join(declared, served)| ==> Join(declared, served)[i].id == Sources(declared)[i].id
    ensures multiset(Sources(declared)) == multiset(declared)
    ensures Sorted(Sources(declared), IdLe)
    ensures Filter(Sources(declared), LikeThis(like, IdLe)) == Filter(declared, LikeThis(like, IdLe))
  {
    IdOrder();
    SortPermutes(declared, IdLe);
    SortSorts(declared, IdLe);
    SortIsStable(declared, IdLe, like);
  }

  /** What an attachment's state means, and that its reason is that of the references exactly where these
      are what is wrong. */
  lemma {:induction false} StateMeans(declared: seq<Declared>, served: Served, i: nat, k: nat)
    requires i < |Sources(declared)| && k < |Sources(declared)[i].parents|
    ensures
      var route := Sources(declared)[i];
      var parent, row := route.parents[k], Join(declared, Some(served))[i].parents[k];
      && (row.state == Pending <==> parent.acceptance.NotRuled?)
      && (row.state == Refused <==> parent.acceptance.Rejected?)
      && (row.state == Unresolved <==> parent.acceptance.Accepted? && !parent.refsResolved)
      && (row.state == IsServed <==>
            parent.acceptance.Accepted? && parent.refsResolved && Carried(served, Belonging(parent), route.id))
      && (row.state == Missing <==>
            parent.acceptance.Accepted? && parent.refsResolved && !Carried(served, Belonging(parent), route.id))
      && row.gateway == parent.gateway && row.section == parent.section
      && row.reason == (if row.state == Unresolved then parent.refsReason else parent.reason)
      && row.message == (if row.state == Unresolved then parent.refsMessage else parent.message)
  {
    var route := Sources(declared)[i];
    IndexServesAsScanned(served, route.parents[k], route.id);
  }

  /** Not knowing what is served. */
  function Blur(state: State): State {
    if state == IsServed || state == Missing then Unknown else state
  }

  function BlurParents(parents: seq<ParentRow>): (r: seq<ParentRow>)
    ensures |r| == |parents|
    ensures forall i :: 0 <= i < |r| ==> r[i] == parents[i].(state := Blur(parents[i].state))
  {
    seq(|parents|, i requires 0 <= i < |parents| => parents[i].(state := Blur(parents[i].state)))
  }

  /** Every attachment's state rests on what is served. */
  predicate AllOnServing(parents: seq<ParentRow>) {
    forall k :: 0 <= k < |parents| ==> parents[k].state == IsServed || parents[k].state == Missing
  }

  lemma {:induction false} BlurredMixed(parents: seq<ParentRow>)
    requires Summarise(parents) == Mixed && forall k :: 0 <= k < |parents| ==> parents[k].state !in {Unknown, Mixed}
    ensures Summarise(BlurParents(parents)) == if AllOnServing(parents) then Unknown else Mixed
  {
    var blurred := BlurParents(parents);
    if AllOnServing(parents) {
      assert forall k :: 0 <= k < |parents| ==> blurred[k].state == Unknown;
    } else {
      var k :| 0 <= k < |parents| && parents[k].state != IsServed && parents[k].state != Missing;
      var j :| 0 <= j < |parents| && parents[j].state != parents[0].state;
      assert blurred[k].state == parents[k].state;
      var i := if parents[k].state == parents[0].state then j else 0;
      assert parents[i].state != parents[k].state;
      assert blurred[i].state != blurred[k].state;
    }
  }

  /** An unreachable gateway takes away one answer and nothing else: every row is what it would be,
      with served and missing attachments unknown and the rest, reasons included, as it was. A row
      whose attachments disagreed is unknown exactly when they only disagreed about that. */
  lemma {:induction false} UnreachableOnlyBlurs(declared: seq<Declared>, served: Served, i: nat)
    requires i < |Join(declared, Some(served))|
    ensures |Join(declared, None)| == |Join(declared, Some(served))|
    ensures
      var reached, row := Join(declared, Some(served))[i], Join(declared, None)[i];
      && row.id == reached.id
      && row.namespace == reached.namespace
      && row.parents == BlurParents(reached.parents)
      && row.state == Summarise(BlurParents(reached.parents))
      && row.state == if reached.state == Mixed && !AllOnServing(reached.parents) then Mixed
                      else if reached.state == Mixed then Unknown
                      else Blur(reached.state)
  {
    var reached, row := Join(declared, Some(served))[i], Join(declared, None)[i];
    forall k | 0 <= k < |reached.parents|
      ensures row.parents[k] == reached.parents[k].(state := Blur(reached.parents[k].state)) {
    }
    assert row.parents == BlurParents(reached.parents);
    if reached.state == Mixed {
      BlurredMixed(reached.parents);
    }
  }

  /** The row's own state is that of every attachment, or says that they disagree. */
  lemma {:induction false} SummaryMeans(declared: seq<Declared>, served: Option<Served>, i: nat, state: State)
    requires i < |Join(declared, served)| && state != Mixed
    ensures
      var row := Join(declared, served)[i];
      row.state == state <==>
      if row.parents == [] then state == Pending
      else forall k :: 0 <= k < |row.parents| ==> row.parents[k].state == state
  {
    var row := Join(declared, served)[i];
    if row.parents != [] {
      assert row.parents[0].state != Mixed;
    }
  }
}
