/** The request-level decisions of `internal/handlers/project_handler.go`:
    the defaults a created project gets, the columns an update touches,
    the paging clamps of the listings, the search guard, and the checks
    that precede a preview build, down to the bucket and object it
    downloads and the URL it publishes. `uuid.Parse` is a parameter. */
module ProjectHandler {
  import opened Wrappers
  import opened Text
  import opened Json
  import opened BuildModel
  import Numbers
  import Query
  import Projects
  import ChatStream
  import Middleware
  import Jwt

  /** A refused request: the HTTP status and the `error` text. */
  datatype Refusal = Refusal(status: int, error: string)

  /** The caller's user ID as the handlers read it from the context. */
  function SignedInUser(ctx: Middleware.Context): (r: Result<Uuid, Refusal>)
    ensures r.Success? <==> "user_id" in ctx && ctx["user_id"].UuidValue?
    ensures r.Success? ==> r.value == ctx["user_id"].u
  {
    if "user_id" !in ctx then Failure(Refusal(401, "User not authenticated"))
    else if !ctx["user_id"].UuidValue? then Failure(Refusal(500, "Invalid user ID"))
    else Success(ctx["user_id"].u)
  }

  // ----- creating and updating ----------------------------------------------

  datatype CreateRequest = CreateRequest(
    name: string,
    description: Option<string>,
    visibility: string,
    rootBucket: string,
    rootPrefix: string,
    quotaBytes: int,
    meta: Option<map<string, Json>>)

  /** The project `CreateProject` hands to the service: the request's
      fields under the owner from the path and an empty visibility
      replaced by "private"; the ID and the version are left zero for the
      insert to fill. */
  function ProjectFromRequest(owner: Uuid, req: CreateRequest): (r: Projects.Project)
    ensures r.visibility != ""
    ensures req.visibility != "" ==> r.visibility == req.visibility
    ensures r.ownerId == owner && r.name == req.name && r.id == NilUuid && r.version == 0 && !r.deleted
  {
    Projects.Project(
      id := NilUuid,
      ownerId := owner,
      name := req.name,
      description := req.description,
      visibility := if req.visibility == "" then Projects.Private else req.visibility,
      rootBucket := req.rootBucket,
      rootPrefix := req.rootPrefix,
      quotaBytes := req.quotaBytes,
      meta := req.meta,
      version := 0,
      createdAt := 0,
      updatedAt := 0,
      deleted := false)
  }

  /** `CreateProject` as written: the handler calls the service as
      written, so the created row belongs to the owner in the path, is
      private unless the request chose otherwise and starts at version
      1, but an empty root prefix is built from the nil ID (see
      `HandlerPrefixNamesNil`). */
  function CreateProject(users: set<Uuid>, rows: Projects.Table, owner: Uuid, req: CreateRequest,
                         newId: Uuid, now: Time): (r: Result<(Projects.Table, Projects.Project), Projects.ProjectError>)
    ensures r.Success? ==> r.value.1.ownerId == owner && r.value.1.name == req.name
    ensures r.Success? ==> r.value.1.visibility == (if req.visibility == "" then Projects.Private else req.visibility)
    ensures r.Success? ==> r.value.1.version == 1
    ensures req.name == "" ==> r == Failure(Projects.NameRequired)
  {
    Projects.CreateProject(users, rows, ProjectFromRequest(owner, req), newId, now)
  }

  /** A request without a root prefix gets one naming the nil UUID
      instead of the new project. */
  lemma HandlerPrefixNamesNil(users: set<Uuid>, rows: Projects.Table, owner: Uuid, req: CreateRequest,
                              newId: Uuid, now: Time)
    requires req.rootPrefix == "" && newId != NilUuid
    requires CreateProject(users, rows, owner, req, newId, now).Success?
    ensures var c := CreateProject(users, rows, owner, req, newId, now).value.1;
            c.id == newId && c.rootPrefix == Projects.PrefixFor(owner, NilUuid) &&
            c.rootPrefix != Projects.PrefixFor(c.ownerId, c.id)
  {
    Projects.NilIdPrefix(users, rows, ProjectFromRequest(owner, req), newId, now);
  }

  /** The handler over the corrected service call: the same refusals and
      defaults, with the prefix naming the created project. */
  function CreateProjectCorrected(users: set<Uuid>, rows: Projects.Table, owner: Uuid, req: CreateRequest,
                                  newId: Uuid, now: Time): (r: Result<(Projects.Table, Projects.Project), Projects.ProjectError>)
    ensures r.Success? ==> r.value.1.ownerId == owner && r.value.1.name == req.name
    ensures r.Success? ==> r.value.1.visibility == (if req.visibility == "" then Projects.Private else req.visibility)
    ensures r.Success? ==> r.value.1.version == 1
    ensures r.Success? && req.rootPrefix == "" ==> r.value.1.rootPrefix == Projects.PrefixFor(owner, r.value.1.id)
    ensures req.name == "" ==> r == Failure(Projects.NameRequired)
    ensures r.Failure? <==> CreateProject(users, rows, owner, req, newId, now).Failure?
  {
    Projects.CreateProjectAssigned(users, rows, ProjectFromRequest(owner, req), newId, now)
  }

  datatype UpdateRequest = UpdateRequest(
    name: Option<string>,
    description: Option<string>,
    visibility: Option<string>,
    quotaBytes: Option<int>,
    meta: Option<map<string, Json>>)

  /** The `updates` map `UpdateProject` builds: a column for each field the
      request carries, none for the others. */
  function UpdatesOf(req: UpdateRequest): (u: Projects.Updates)
    ensures u.name == req.name && u.description == req.description && u.visibility == req.visibility
    ensures u.quotaBytes == req.quotaBytes && u.meta == req.meta
  {
    Projects.Updates(req.name, req.description, req.visibility, req.quotaBytes, req.meta)
  }

  /** An update changes exactly the fields the request carries: a request
      with none of them only bumps the version and the update time, and a
      field left out keeps its stored value. */
  lemma UpdateTouchesOnlyGiven(rows: Projects.Table, id: Uuid, req: UpdateRequest, now: Time)
    requires id in rows && !rows[id].deleted
    ensures var r := Projects.UpdateProject(rows, id, UpdatesOf(req), now);
            r.Success? ==>
              var p := r.value[id];
              (req.name.None? ==> p.name == rows[id].name) &&
              (req.description.None? ==> p.description == rows[id].description) &&
              (req.visibility.None? ==> p.visibility == rows[id].visibility) &&
              (req.quotaBytes.None? ==> p.quotaBytes == rows[id].quotaBytes) &&
              (req.meta.None? ==> p.meta == rows[id].meta)
    ensures req == UpdateRequest(None, None, None, None, None) ==>
              Projects.UpdateProject(rows, id, UpdatesOf(req), now) ==
              Success(rows[id := rows[id].(version := rows[id].version + 1, updatedAt := now)])
  {
  }

  // ----- listing and searching ----------------------------------------------

  /** The `offset` and `limit` of `ListProjects` and `GetPublicProjects`
      from their optional query parameters. */
  function Page(offsetQ: Option<string>, limitQ: Option<string>): (r: (int, int))
    ensures r.0 >= 0 && 1 <= r.1 <= 100
  {
    (Query.Offset(Query.DefaultQuery(offsetQ, "0")), Query.Limit(Query.DefaultQuery(limitQ, "10"), 100, 10))
  }

  /** The first page of ten is what a bare request gets, and also what an
      empty, negative or oversized parameter gets; any offset and any page
      size in range is taken as given. */
  lemma PageClamps(o: int, l: int)
    requires Numbers.MinInt <= o <= Numbers.MaxInt && Numbers.MinInt <= l <= Numbers.MaxInt
    ensures Page(None, None) == (0, 10)
    ensures Page(Some(""), Some("")) == (0, 10)
    ensures o >= 0 ==> Page(Some(Numbers.IntToString(o)), None).0 == o
    ensures o < 0 ==> Page(Some(Numbers.IntToString(o)), None).0 == 0
    ensures 1 <= l <= 100 ==> Page(None, Some(Numbers.IntToString(l))).1 == l
    ensures (l <= 0 || l > 100) ==> Page(None, Some(Numbers.IntToString(l))).1 == 10
  {
    Numbers.AtoiOfIntToString(o);
    Numbers.AtoiOfIntToString(l);
    assert Numbers.Atoi("0") == Some(0) by { Numbers.AtoiOfIntToString(0); }
    assert Numbers.Atoi("10") == Some(10) by { Numbers.AtoiOfIntToString(10); }
  }

  /** `c.Query(key)`: an absent or empty filter is no filter. */
  function Filter(value: string): (r: Option<string>)
    ensures r.None? <==> value == ""
    ensures r.Some? ==> r.value == value
  {
    if value == "" then None else Some(value)
  }

  datatype Listing = Listing(owner: Uuid, visibility: Option<string>, offset: int, limit: int)

  /** `ListProjects`: always scoped to the signed-in user, whatever the
      query says. */
  function ListProjects(ctx: Middleware.Context, offsetQ: Option<string>, limitQ: Option<string>,
                        visibilityQ: string): (r: Result<Listing, Refusal>)
    ensures r.Success? <==> SignedInUser(ctx).Success?
    ensures r.Failure? ==> r.error == SignedInUser(ctx).error
    ensures r.Success? ==> r.value.owner == SignedInUser(ctx).value &&
                           (r.value.offset, r.value.limit) == Page(offsetQ, limitQ) &&
                           r.value.visibility == Filter(visibilityQ)
  {
    match SignedInUser(ctx)
    case Failure(e) => Failure(e)
    case Success(user) =>
      var page := Page(offsetQ, limitQ);
      Success(Listing(user, Filter(visibilityQ), page.0, page.1))
  }

  /** A request the authentication middleware let through lists the
      projects of the token's user and of no one else. */
  lemma ListScopedToCaller(ctx: Middleware.Context, c: Jwt.Claims, offsetQ: Option<string>,
                           limitQ: Option<string>, visibilityQ: string)
    ensures var r := ListProjects(Middleware.SignIn(ctx, c), offsetQ, limitQ, visibilityQ);
            r.Success? && r.value.owner == c.userId
  {
  }

  datatype Search = Search(text: string, owner: Option<Uuid>, visibility: Option<string>, limit: int)

  /** `SearchProjects`: an empty query is refused; the limit is clamped to
      `1..50`; an `owner_id` that does not parse is dropped rather than
      refused. */
  function SearchProjects(parseUuid: string -> Option<Uuid>, q: string, limitQ: Option<string>,
                          ownerQ: string, visibilityQ: string): (r: Result<Search, Refusal>)
    ensures r.Failure? <==> q == ""
    ensures r.Failure? ==> r.error == Refusal(400, "Search query is required")
    ensures r.Success? ==> r.value.text == q && 1 <= r.value.limit <= 50
    ensures r.Success? ==> (r.value.owner.Some? <==> ownerQ != "" && parseUuid(ownerQ).Some?)
  {
    if q == "" then Failure(Refusal(400, "Search query is required"))
    else
      var owner := if ownerQ != "" && parseUuid(ownerQ).Some? then parseUuid(ownerQ) else None;
      Success(Search(q, owner, Filter(visibilityQ), Query.Limit(Query.DefaultQuery(limitQ, "10"), 50, 10)))
  }

  /** A malformed owner filter widens the search to every owner: the
      result is the search with no owner filter at all. */
  lemma SearchIgnoresBadOwner(parseUuid: string -> Option<Uuid>, q: string, limitQ: Option<string>,
                              ownerQ: string, visibilityQ: string)
    requires parseUuid(ownerQ).None?
    ensures SearchProjects(parseUuid, q, limitQ, ownerQ, visibilityQ) ==
            SearchProjects(parseUuid, q, limitQ, "", visibilityQ)
  {
  }

  // ----- preview ------------------------------------------------------------

  /** `parseMinIOPathLocal`: the text before and after the first '/', or
      two empty strings when there is none. The same function as the chat
      handler's `parseMinIOPath`. */
  method ParseMinIOPathLocal(p: string) returns (bucket: string, obj: string)
    ensures (bucket, obj) == ChatStream.ParseMinIOPath(p)
  {
    var i := 0;
    while i < |p|
      invariant 0 <= i <= |p| && '/' !in p[..i]
    {
      if p[i] == '/' {
        assert p == p[..i] + p[i..];
        IndexOfShift(p[..i], p[i..], '/');
        assert IndexOf(p[i..], '/') == 0;
        return p[..i], p[i + 1..];
      }
      i := i + 1;
    }
    assert p[..i] == p;
    return "", "";
  }

  /** Where the preview of a project is published. */
  function PreviewUrl(id: Uuid): string {
    "/static/" + id + "/index.html"
  }

  /** Different projects publish at different URLs. */
  lemma PreviewUrlInjective(a: Uuid, b: Uuid)
    ensures PreviewUrl(a) == PreviewUrl(b) <==> a == b
  {
    if PreviewUrl(a) == PreviewUrl(b) {
      assert |a| == |b|;
      assert a == PreviewUrl(a)[8..8 + |a|];
      assert b == PreviewUrl(b)[8..8 + |b|];
    }
  }

  datatype PreviewPlan = PreviewPlan(projectId: Uuid, bucket: string, objectName: string, url: string)

  const NoNetworkPath: string := "No network path available for this project (project not saved to MinIO yet)"

  /** The checks `BuildPreview` makes before any download: a signed-in
      user, a project ID that parses, a live project the user owns, a
      non-empty network path, and a path with a bucket and an object.
      `locations` holds each project's storage location. */
  function PreviewChecks(parseUuid: string -> Option<Uuid>, ctx: Middleware.Context, idParam: string,
                         rows: Projects.Table, locations: map<Uuid, ChatStream.StorageLocation>)
    : (r: Result<PreviewPlan, Refusal>)
    ensures r.Failure? ==> r.error.status in {400, 401, 403, 404, 500}
    ensures r.Success? ==>
              var id := r.value.projectId;
              SignedInUser(ctx).Success? && parseUuid(idParam) == Some(id) &&
              id in rows && !rows[id].deleted && rows[id].ownerId == SignedInUser(ctx).value &&
              id in locations && ChatStream.HasNetworkPath(locations[id]) &&
              r.value.bucket != "" && r.value.objectName != "" && '/' !in r.value.bucket &&
              r.value.bucket + "/" + r.value.objectName == locations[id].networkPath.value &&
              r.value.url == PreviewUrl(id)
  {
    match SignedInUser(ctx)
    case Failure(e) => Failure(e)
    case Success(user) =>
      match parseUuid(idParam)
      case None => Failure(Refusal(400, "Invalid project ID"))
      case Some(id) =>
        if !(id in rows && !rows[id].deleted) then Failure(Refusal(404, "Project not found"))
        else if rows[id].ownerId != user then Failure(Refusal(403, "You do not own this project"))
        else if !(id in locations && ChatStream.HasNetworkPath(locations[id])) then Failure(Refusal(400, NoNetworkPath))
        else
          var parts := ChatStream.ParseMinIOPath(locations[id].networkPath.value);
          if parts.0 == "" || parts.1 == "" then Failure(Refusal(400, "Invalid network path format"))
          else Success(PreviewPlan(id, parts.0, parts.1, PreviewUrl(id)))
  }

  /** A project its owner saved to `bucket/object` passes every check and
      downloads exactly that object; a path without an object part is
      refused as malformed, and another user's request is forbidden. */
  lemma PreviewOfStoredProject(parseUuid: string -> Option<Uuid>, ctx: Middleware.Context, idParam: string,
                               rows: Projects.Table, locations: map<Uuid, ChatStream.StorageLocation>,
                               id: Uuid, bucket: string, objectName: string)
    requires parseUuid(idParam) == Some(id) && id in rows && !rows[id].deleted
    requires SignedInUser(ctx).Success?
    requires id in locations && locations[id].networkPath == Some(bucket + "/" + objectName)
    requires bucket != "" && '/' !in bucket
    ensures rows[id].ownerId == SignedInUser(ctx).value && objectName != "" ==>
              PreviewChecks(parseUuid, ctx, idParam, rows, locations) == Success(PreviewPlan(id, bucket, objectName, PreviewUrl(id)))
    ensures rows[id].ownerId == SignedInUser(ctx).value && objectName == "" ==>
              PreviewChecks(parseUuid, ctx, idParam, rows, locations) == Failure(Refusal(400, "Invalid network path format"))
    ensures rows[id].ownerId != SignedInUser(ctx).value ==>
              PreviewChecks(parseUuid, ctx, idParam, rows, locations) == Failure(Refusal(403, "You do not own this project"))
  {
    ChatStream.ParseComposed(bucket, objectName);
  }
}
