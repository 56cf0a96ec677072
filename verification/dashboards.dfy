/** `DashboardManager` (databricks_ops/dashboards.py): finding, deleting and
    creating the customer insights dashboard. The workspace's answers are
    inputs: each dashboard listing (every `find_dashboard_by_name` lists
    afresh), the trash reply, the create reply and the workspace host.
    Whether a text parses as JSON is the predicate `isJson`. */
module Dashboards {
  import opened Wrappers
  import opened Strings
  import opened Templates

  datatype DashboardInfo = DashboardInfo(id: string, name: string, warehouseId: string)

  /** The dashboard handed to the create call. */
  datatype Dashboard = Dashboard(displayName: string, warehouseId: string, serialized: string, parentPath: string)

  /** The calls that change the workspace, in the order they are made. */
  datatype Action = Trash(dashboardId: string) | Create(dashboard: Dashboard)

  datatype TrashReply = Trashed | TrashFailed(message: string)

  /** `CreateRaised`: the create call raised; otherwise the id it returned. */
  datatype CreateReply = CreateRaised | CreateReturned(dashboardId: Option<string>)

  /** A dashboard listing: `None` when `lakeview.list()` raised. */
  type Listing = Option<seq<DashboardInfo>>

  /** The workspace host and the answer of the create call. */
  datatype Workspace = Workspace(host: string, create: CreateReply)

  datatype Outcome = Outcome(url: Option<string>, actions: seq<Action>)

  /** Python truthiness of an optional string. */
  predicate Truthy(o: Option<string>) {
    o.Some? && |o.value| > 0
  }

  function DashboardUrl(host: string, id: string): (url: string) {
    host + "/sql/dashboardsv3/" + id
  }

  /** `list_dashboards`: a failed listing is the empty list. */
  function ListDashboards(listing: Listing): (ds: seq<DashboardInfo>) {
    listing.GetOr([])
  }

  /** The id of the first dashboard named exactly `name`. */
  function FirstNamed(ds: seq<DashboardInfo>, name: string): (r: Option<string>)
    ensures r.None? <==> forall i :: 0 <= i < |ds| ==> ds[i].name != name
    ensures r.Some? ==> exists i :: && 0 <= i < |ds| && ds[i].name == name && ds[i].id == r.value
                                    && forall j :: 0 <= j < i ==> ds[j].name != name
  {
    if |ds| == 0 then None
    else if ds[0].name == name then Some(ds[0].id)
    else
      var r := FirstNamed(ds[1..], name);
      assert forall i :: 1 <= i < |ds| ==> ds[i] == ds[1..][i - 1];
      r
  }

  /** `find_dashboard_by_name`: the id of the first listed dashboard whose name
      equals `name`; nothing when none does or the listing failed. */
  function FindDashboardByName(listing: Listing, name: string): (r: Option<string>)
    ensures listing.None? ==> r.None?
    ensures r.None? <==> forall i :: 0 <= i < |ListDashboards(listing)| ==> ListDashboards(listing)[i].name != name
    ensures r.Some? ==> var ds := ListDashboards(listing);
                        exists i :: && 0 <= i < |ds| && ds[i].name == name && ds[i].id == r.value
                                    && forall j :: 0 <= j < i ==> ds[j].name != name
  {
    FirstNamed(ListDashboards(listing), name)
  }

  /** `delete_dashboard`: an error whose lower-cased message mentions
      `not found` counts as deleted. */
  function DeleteDashboard(reply: TrashReply): (deleted: bool) {
    match reply
    case Trashed => true
    case TrashFailed(message) => Contains(Lower(message), "not found")
  }

  /** "not found" is recognised in any letter case and anywhere in the
      message, and the letter case of a message never decides whether the
      error counts as deleted. */
  lemma DeleteDashboardNotFound(before: string, m: string, after: string, other: string)
    requires Lower(m) == "not found"
    ensures DeleteDashboard(TrashFailed(before + m + after))
    ensures DeleteDashboard(TrashFailed(Upper(other))) == DeleteDashboard(TrashFailed(other))
    ensures DeleteDashboard(TrashFailed(Lower(other))) == DeleteDashboard(TrashFailed(other))
  {
    LowerDistributes(before + m, after);
    LowerDistributes(before, m);
    ContainsInfix(Lower(before), "not found", Lower(after));
    LowerIgnoresCase(other);
  }

  /** `create_dashboard_from_file`: substitute, check the text is JSON, delete
      a dashboard of the same name, then create. `listing` is the answer to
      the listing made by `_delete_existing_dashboard_sdk`; the outcome of
      its trash call is ignored. */
  function CreateDashboardFromFile(ws: Workspace, listing: Listing, template: Option<string>,
                                   isJson: string -> bool, name: string, warehouseId: string,
                                   subs: Option<Substitutions>): (out: Outcome)
    ensures template.None? ==> out == Outcome(None, [])
    ensures template.Some? && !isJson(ApplySubstitutions(template.value, subs)) ==> out == Outcome(None, [])
    ensures template.Some? && isJson(ApplySubstitutions(template.value, subs)) ==>
              var existing := FindDashboardByName(listing, name);
              && out.actions == (if Truthy(existing) then [Trash(existing.value)] else [])
                                + [Create(Dashboard(name, warehouseId, ApplySubstitutions(template.value, subs), "/Shared"))]
              && (out.url.Some? <==> ws.create.CreateReturned? && Truthy(ws.create.dashboardId))
              && (out.url.Some? ==> out.url.value == DashboardUrl(ws.host, ws.create.dashboardId.value))
  {
    if template.None? then Outcome(None, [])
    else
      var content := ApplySubstitutions(template.value, subs);
      if !isJson(content) then Outcome(None, [])
      else
        var existing := FindDashboardByName(listing, name);
        var deletes := if Truthy(existing) then [Trash(existing.value)] else [];
        var url := match ws.create
                   case CreateRaised => None
                   case CreateReturned(id) => if Truthy(id) then Some(DashboardUrl(ws.host, id.value)) else None;
        Outcome(url, deletes + [Create(Dashboard(name, warehouseId, content, "/Shared"))])
  }

  function CustomerInsightsName(prefix: string): (name: string) {
    prefix + "_customer_insights_dashboard"
  }

  /** The substitutions for the customer insights template: the prefix, and
      the catalog and dataset names under the upper-cased prefix's keys. */
  function CustomerInsightsSubstitutions(prefix: string): (subs: Substitutions)
    ensures DistinctKeys(subs)
    ensures |subs| == 3 && subs[0] == ("PREFIX", prefix)
    ensures subs[1].0 == Upper(prefix) + "_CATALOG" && subs[2].0 == Upper(prefix) + "_CUSTOMER_DATASET"
  {
    [("PREFIX", prefix),
     (Upper(prefix) + "_CATALOG", prefix + "_catalog"),
     (Upper(prefix) + "_CUSTOMER_DATASET", prefix + "_customer_data")]
  }

  /** `setup_customer_insights_dashboard`: an existing dashboard of that name is
      returned as is; otherwise the template is created. `lookup` is the
      answer to setup's own listing; `listing` the answer to the second one,
      made inside the create step. */
  function SetupCustomerInsightsDashboard(ws: Workspace, lookup: Listing, listing: Listing,
                                          template: Option<string>, isJson: string -> bool,
                                          prefix: string, warehouseId: string): (out: Outcome)
    ensures var existing := FindDashboardByName(lookup, CustomerInsightsName(prefix));
            Truthy(existing) ==> out == Outcome(Some(DashboardUrl(ws.host, existing.value)), [])
    ensures var existing := FindDashboardByName(lookup, CustomerInsightsName(prefix));
            var content := ApplySubstitutions(template.GetOr(""), Some(CustomerInsightsSubstitutions(prefix)));
            !Truthy(existing) && template.Some? && isJson(content) ==>
              && |out.actions| > 0
              && out.actions[|out.actions| - 1]
                 == Create(Dashboard(CustomerInsightsName(prefix), warehouseId, content, "/Shared"))
              && (out.url.Some? <==> ws.create.CreateReturned? && Truthy(ws.create.dashboardId))
              && (out.url.Some? ==> out.url.value == DashboardUrl(ws.host, ws.create.dashboardId.value))
    ensures var existing := FindDashboardByName(lookup, CustomerInsightsName(prefix));
            !Truthy(existing) && (template.None? || !isJson(ApplySubstitutions(template.value,
                                                              Some(CustomerInsightsSubstitutions(prefix))))) ==>
              out == Outcome(None, [])
    ensures |out.actions| <= 2
    ensures forall i :: 0 <= i < |out.actions| && out.actions[i].Create? ==>
              out.actions[i].dashboard.displayName == CustomerInsightsName(prefix)
  {
    var name := CustomerInsightsName(prefix);
    var existing := FindDashboardByName(lookup, name);
    if Truthy(existing) then Outcome(Some(DashboardUrl(ws.host, existing.value)), [])
    else CreateDashboardFromFile(ws, listing, template, isJson, name, warehouseId,
                                 Some(CustomerInsightsSubstitutions(prefix)))
  }

  /** When setup has to create the dashboard, it trashes one exactly when the
      second listing finds a dashboard of that name: what setup's own lookup
      saw does not protect it. */
  lemma SetupTrashesWhatSecondListingFinds(ws: Workspace, lookup: Listing, listing: Listing,
                                           template: Option<string>, isJson: string -> bool,
                                           prefix: string, warehouseId: string)
    requires !Truthy(FindDashboardByName(lookup, CustomerInsightsName(prefix)))
    ensures var out := SetupCustomerInsightsDashboard(ws, lookup, listing, template, isJson, prefix, warehouseId);
            var found := FindDashboardByName(listing, CustomerInsightsName(prefix));
            && ((exists i :: 0 <= i < |out.actions| && out.actions[i].Trash?)
                <==> && template.Some?
                     && isJson(ApplySubstitutions(template.value, Some(CustomerInsightsSubstitutions(prefix))))
                     && Truthy(found))
            && forall i :: 0 <= i < |out.actions| && out.actions[i].Trash? ==> out.actions[i].dashboardId == found.value
  {
    var name, subs := CustomerInsightsName(prefix), Some(CustomerInsightsSubstitutions(prefix));
    var out := SetupCustomerInsightsDashboard(ws, lookup, listing, template, isJson, prefix, warehouseId);
    assert out == CreateDashboardFromFile(ws, listing, template, isJson, name, warehouseId, subs);
    if template.Some? && isJson(ApplySubstitutions(template.value, subs)) {
      var found := FindDashboardByName(listing, name);
      var create := Create(Dashboard(name, warehouseId, ApplySubstitutions(template.value, subs), "/Shared"));
      if Truthy(found) {
        assert out.actions == [Trash(found.value), create];
        assert out.actions[0].Trash?;
      } else {
        assert out.actions == [create];
      }
    } else {
      assert out.actions == [];
    }
  }

  /** When both listings agree on the dashboard of that name, setup never
      trashes, and it creates at most the one dashboard. */
  lemma SetupNeverTrashes(ws: Workspace, lookup: Listing, listing: Listing,
                          template: Option<string>, isJson: string -> bool,
                          prefix: string, warehouseId: string)
    requires FindDashboardByName(listing, CustomerInsightsName(prefix))
             == FindDashboardByName(lookup, CustomerInsightsName(prefix))
    ensures var out := SetupCustomerInsightsDashboard(ws, lookup, listing, template, isJson, prefix, warehouseId);
            && |out.actions| <= 1
            && forall i :: 0 <= i < |out.actions| ==> out.actions[i].Create?
  {
    if !Truthy(FindDashboardByName(lookup, CustomerInsightsName(prefix))) {
      SetupTrashesWhatSecondListingFinds(ws, lookup, listing, template, isJson, prefix, warehouseId);
    }
  }

  /** The first listing raises, so setup's lookup finds nothing, and the
      second listing shows the dashboard: setup trashes it before creating
      the new one. */
  lemma SetupTrashesAfterFailedLookup(ws: Workspace, id: string, otherWarehouse: string, template: string,
                                      isJson: string -> bool, prefix: string, warehouseId: string)
    requires |id| > 0
    requires isJson(ApplySubstitutions(template, Some(CustomerInsightsSubstitutions(prefix))))
    ensures var listing := Some([DashboardInfo(id, CustomerInsightsName(prefix), otherWarehouse)]);
            SetupCustomerInsightsDashboard(ws, None, listing, Some(template), isJson, prefix, warehouseId)
              .actions[0] == Trash(id)
  {
  }

  /** A `${PREFIX}` placeholder standing in a template that holds no other
      `$` becomes the prefix itself, provided the filled text holds no `${`. */
  lemma PrefixPlaceholderBecomesPrefix(prefix: string, before: string, after: string)
    requires '$' !in before && '$' !in after
    requires !Contains(before + prefix + after, "${")
    ensures ApplySubstitutions(before + Placeholder("PREFIX") + after, Some(CustomerInsightsSubstitutions(prefix)))
            == before + prefix + after
  {
    PlaceholderBecomesValue(before, after, CustomerInsightsSubstitutions(prefix), 0);
  }
}
