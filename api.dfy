/** src/api.rs: where each request of the VictoriaMetrics client goes (path
    rewriting for cluster deployments, insert and storage hosts, snapshot
    URLs), and the projection of the snapshot listing into records. */
module Api {
  import opened Wrappers
  import opened Text
  import opened Numbers
  import opened Errors
  import J = JsonValue

  /** The `[cluster]` section of the configuration, with its defaults applied. */
  datatype ClusterConfig = ClusterConfig(
    queryEndpoint: string,
    queryRangeEndpoint: string,
    healthEndpoint: string,
    metricsEndpoint: string,
    useSelectEndpoint: bool,
    selectAccountId: string,
    selectProjectId: string,
    vminsertHost: Option<string>,
    vmstorageHost: Option<string>)

  /** `VmClient` without its HTTP transport. */
  datatype VmClient = VmClient(baseUrl: string, cluster: Option<ClusterConfig>)

  /** One element of `data.result` in a query response; `metric` is the label
      map in its iteration order. */
  datatype QueryResult = QueryResult(
    metric: seq<(string, string)>,
    value: Option<(F64, string)>,
    values: Option<seq<(F64, string)>>)

  datatype SnapshotInfo = SnapshotInfo(name: string, createdAt: string, size: string, status: string)

  /** Every request the client can make. */
  datatype ApiCall =
    | Query | QueryRange | Health | Metrics
    | DeleteSeries | Export | Import | GetRetention | SetRetention | Flags | BuildInfo
    | CreateSnapshot | ListSnapshots | DeleteSnapshot | RestoreSnapshot

  const SnapshotHostMissing := "vmstorage_host не настроен в конфигурации кластера"

  // ---------------------------------------------------------------------------
  // Routing

  /** `get_endpoint`: with a select-mode cluster, `/api/` paths move under
      `/select/<account>/prometheus`; a cluster not in select mode sends every
      routed request to its query endpoint. */
  function GetEndpoint(client: VmClient, default: string): string
  {
    match client.cluster
    case None => default
    case Some(cluster) =>
      if cluster.useSelectEndpoint then
        if StartsWith(default, "/api/") then
          "/select/" + cluster.selectAccountId + "/prometheus" + default
        else default
      else cluster.queryEndpoint
  }

  /** The three branches of `get_endpoint`, stated by what the result looks like. */
  lemma EndpointRouting(client: VmClient, default: string)
    ensures client.cluster.None? ==> GetEndpoint(client, default) == default
    ensures client.cluster.Some? && client.cluster.value.useSelectEndpoint && StartsWith(default, "/api/") ==>
              GetEndpoint(client, default) ==
                "/select/" + client.cluster.value.selectAccountId + "/prometheus" + default
              && StartsWith(GetEndpoint(client, default), "/select/")
              && EndsWith(GetEndpoint(client, default), "/prometheus" + default)
    ensures client.cluster.Some? && client.cluster.value.useSelectEndpoint && !StartsWith(default, "/api/") ==>
              GetEndpoint(client, default) == default
    ensures client.cluster.Some? && !client.cluster.value.useSelectEndpoint ==>
              GetEndpoint(client, default) == client.cluster.value.queryEndpoint
  {
    if client.cluster.Some? && client.cluster.value.useSelectEndpoint && StartsWith(default, "/api/") {
      var r := GetEndpoint(client, default);
      var tail := "/prometheus" + default;
      assert r == "/select/" + client.cluster.value.selectAccountId + tail;
      assert r[..|"/select/"|] == "/select/";
      assert r[|r| - |tail|..] == tail;
    }
  }

  /** A rewritten path is never rewritten again: `/select/...` does not start
      with `/api/`, and the query endpoint is a fixed point of its own branch. */
  lemma EndpointIdempotent(client: VmClient, default: string)
    ensures GetEndpoint(client, GetEndpoint(client, default)) == GetEndpoint(client, default)
  {
    if client.cluster.Some? && client.cluster.value.useSelectEndpoint && StartsWith(default, "/api/") {
      var r := GetEndpoint(client, default);
      assert r[1] == 's';
    }
  }

  /** Outside select mode the default path is ignored altogether: a range
      query, a health probe and a metric listing all hit the query endpoint. */
  lemma NonSelectClusterIgnoresPath(client: VmClient, a: string, b: string)
    requires client.cluster.Some? && !client.cluster.value.useSelectEndpoint
    ensures GetEndpoint(client, a) == GetEndpoint(client, b) == client.cluster.value.queryEndpoint
  {
  }

  /** `create_insert_client`: the cluster's vminsert host when set, otherwise
      the base URL. */
  function InsertHost(client: VmClient): (host: string)
    ensures client.cluster.None? || client.cluster.value.vminsertHost.None? ==> host == client.baseUrl
    ensures client.cluster.Some? && client.cluster.value.vminsertHost.Some? ==>
              host == client.cluster.value.vminsertHost.value
  {
    match client.cluster
    case None => client.baseUrl
    case Some(cluster) => UnwrapOr(cluster.vminsertHost, client.baseUrl)
  }

  /** `create_storage_client`: the cluster's vmstorage host when set, otherwise
      the base URL. */
  function StorageHost(client: VmClient): (host: string)
    ensures client.cluster.None? || client.cluster.value.vmstorageHost.None? ==> host == client.baseUrl
    ensures client.cluster.Some? && client.cluster.value.vmstorageHost.Some? ==>
              host == client.cluster.value.vmstorageHost.value
  {
    match client.cluster
    case None => client.baseUrl
    case Some(cluster) => UnwrapOr(cluster.vmstorageHost, client.baseUrl)
  }

  /** The URL of a snapshot operation (`create`, `list`, `delete`, `restore`):
      a cluster must name its vmstorage host, a single node uses the base URL. */
  function SnapshotUrl(client: VmClient, op: string): CliResult<string>
  {
    match client.cluster
    case Some(cluster) =>
      (match cluster.vmstorageHost
       case Some(host) => Ok(host + "/snapshot/" + op)
       case None => Err(ApiError(SnapshotHostMissing, None)))
    case None => Ok(client.baseUrl + "/snapshot/" + op)
  }

  /** The snapshot URL fails exactly for a cluster without a storage host, with
      no HTTP status; otherwise it is the storage client's host plus the
      operation path, so snapshots and the storage client agree except in the
      error case, where the storage client falls back to the base URL. */
  lemma SnapshotUrlAgreesWithStorageHost(client: VmClient, op: string)
    ensures SnapshotUrl(client, op).Err? <==>
              client.cluster.Some? && client.cluster.value.vmstorageHost.None?
    ensures SnapshotUrl(client, op).Err? ==>
              SnapshotUrl(client, op).error == ApiError(SnapshotHostMissing, None)
              && StorageHost(client) == client.baseUrl
    ensures SnapshotUrl(client, op).Ok? ==>
              SnapshotUrl(client, op).value == StorageHost(client) + "/snapshot/" + op
  {
    match client.cluster {
      case None =>
      case Some(cluster) =>
        match cluster.vmstorageHost {
          case Some(host) =>
          case None =>
        }
    }
  }

  /** The path a request names before routing. */
  function DefaultPath(call: ApiCall): string
  {
    match call
    case Query => "/api/v1/query"
    case QueryRange => "/api/v1/query_range"
    case Health => "/health"
    case Metrics => "/api/v1/label/__name__/values"
    case DeleteSeries => "/api/v1/admin/tsdb/delete_series"
    case Export => "/api/v1/export"
    case Import => "/api/v1/import"
    case GetRetention => "/admin/tsdb/retention"
    case SetRetention => "/admin/tsdb/retention"
    case Flags => "/flags"
    case BuildInfo => "/api/v1/status/buildinfo"
    case CreateSnapshot => "/snapshot/create"
    case ListSnapshots => "/snapshot/list"
    case DeleteSnapshot => "/snapshot/delete"
    case RestoreSnapshot => "/snapshot/restore"
  }

  predicate IsRouted(call: ApiCall)
  {
    call.Query? || call.QueryRange? || call.Health? || call.Metrics?
  }

  predicate IsSnapshotCall(call: ApiCall)
  {
    call.CreateSnapshot? || call.ListSnapshots? || call.DeleteSnapshot? || call.RestoreSnapshot?
  }

  /** The URL each client method sends its request to. */
  function RequestUrl(client: VmClient, call: ApiCall): CliResult<string>
  {
    if IsRouted(call) then Ok(client.baseUrl + GetEndpoint(client, DefaultPath(call)))
    else if IsSnapshotCall(call) then SnapshotUrl(client, DefaultPath(call)[|"/snapshot/"|..])
    else Ok(client.baseUrl + DefaultPath(call))
  }

  /** Deleting series, export, import, retention, flags and build info go to a
      fixed path under the base URL whatever the cluster configuration says. */
  lemma FixedPathsIgnoreCluster(client: VmClient, call: ApiCall)
    requires !IsRouted(call) && !IsSnapshotCall(call)
    ensures RequestUrl(client, call) == Ok(client.baseUrl + DefaultPath(call))
    ensures RequestUrl(client, call) == RequestUrl(VmClient(client.baseUrl, None), call)
  {
  }

  /** Without a cluster every request goes to the base URL plus its own path;
      a snapshot request is then never refused. */
  lemma SingleNodeUsesDefaultPaths(baseUrl: string, call: ApiCall)
    ensures RequestUrl(VmClient(baseUrl, None), call) == Ok(baseUrl + DefaultPath(call))
  {
    if IsSnapshotCall(call) {
      var p := DefaultPath(call);
      assert p[..|"/snapshot/"|] == "/snapshot/";
      assert p == p[..|"/snapshot/"|] + p[|"/snapshot/"|..];
      assert baseUrl + "/snapshot/" + p[|"/snapshot/"|..] == baseUrl + p;
    }
  }

  // ---------------------------------------------------------------------------
  // The snapshot listing

  /** One element of `snapshots`: objects only, every missing or non-string
      field read as `""`. */
  function SnapshotOf(v: J.Json): Option<SnapshotInfo>
  {
    match J.AsObject(v)
    case Some(obj) =>
      Some(SnapshotInfo(J.StrMember(obj, "name"), J.StrMember(obj, "created_at"),
                        J.StrMember(obj, "size"), J.StrMember(obj, "status")))
    case None => None
  }

  /** What `list_snapshots` returns for a parsed response body. */
  function SnapshotList(response: J.Json): seq<SnapshotInfo>
  {
    var arr := J.Get(response, "snapshots");
    if arr.Some? && arr.value.JArray? then FilterMap(arr.value.items, SnapshotOf) else []
  }

  /** The loop of `list_snapshots` over a parsed response body. */
  method ListSnapshotInfos(response: J.Json) returns (snapshots: seq<SnapshotInfo>)
    ensures snapshots == SnapshotList(response)
  {
    snapshots := [];
    var arr := J.Get(response, "snapshots");
    if arr.Some? && arr.value.JArray? {
      var items := arr.value.items;
      for i := 0 to |items|
        invariant snapshots == FilterMap(items[..i], SnapshotOf)
      {
        FilterMapStep(items, SnapshotOf, i);
        match J.AsObject(items[i]) {
          case Some(obj) =>
            var snapshot := SnapshotInfo(J.StrMember(obj, "name"), J.StrMember(obj, "created_at"),
                                         J.StrMember(obj, "size"), J.StrMember(obj, "status"));
            snapshots := snapshots + [snapshot];
          case None =>
            assert FilterMap(items[..i], SnapshotOf) + [] == FilterMap(items[..i], SnapshotOf);
        }
      }
      assert items[..|items|] == items;
    }
  }

  /** A response without a `snapshots` array lists nothing; otherwise there is
      one record per object element, in order, carrying that object's string
      fields, and every non-object element is skipped. */
  lemma SnapshotListShape(response: J.Json)
    ensures J.Get(response, "snapshots").None? ==> SnapshotList(response) == []
    ensures J.Get(response, "snapshots").Some? && !J.Get(response, "snapshots").value.JArray? ==>
              SnapshotList(response) == []
    ensures J.Get(response, "snapshots").Some? && J.Get(response, "snapshots").value.JArray? ==>
              var items := J.Get(response, "snapshots").value.items;
              |SnapshotList(response)| == |Kept(items, SnapshotOf)|
              && (forall j :: 0 <= j < |Kept(items, SnapshotOf)| ==>
                    Kept(items, SnapshotOf)[j].JObject?
                    && SnapshotList(response)[j].name == J.StrMember(Kept(items, SnapshotOf)[j].members, "name")
                    && SnapshotList(response)[j].createdAt == J.StrMember(Kept(items, SnapshotOf)[j].members, "created_at")
                    && SnapshotList(response)[j].size == J.StrMember(Kept(items, SnapshotOf)[j].members, "size")
                    && SnapshotList(response)[j].status == J.StrMember(Kept(items, SnapshotOf)[j].members, "status"))
              && (forall x :: x in Kept(items, SnapshotOf) <==> x in items && x.JObject?)
  {
    var arr := J.Get(response, "snapshots");
    if arr.Some? && arr.value.JArray? {
      var items := arr.value.items;
      FilterMapIsMapOfKept(items, SnapshotOf);
      forall x
        ensures x in Kept(items, SnapshotOf) <==> x in items && x.JObject?
      {
        KeptMembership(items, SnapshotOf, x);
      }
    }
  }

  /** An array made only of objects loses nothing. */
  lemma SnapshotListOfObjects(response: J.Json)
    requires J.Get(response, "snapshots").Some? && J.Get(response, "snapshots").value.JArray?
    requires var items := J.Get(response, "snapshots").value.items;
             forall i :: 0 <= i < |items| ==> items[i].JObject?
    ensures |SnapshotList(response)| == |J.Get(response, "snapshots").value.items|
  {
    var items := J.Get(response, "snapshots").value.items;
    KeptAll(items, SnapshotOf);
    FilterMapIsMapOfKept(items, SnapshotOf);
  }
}
