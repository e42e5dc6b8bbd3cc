/** The project service of `internal/services/project_service.go`:
    creating a project with its defaults, updating it with the version
    bump, soft deletion, and slug generation. The `projects` table is a
    map from id to row, the live users a set of ids; each lookup the
    service makes is a query over them. Errors of the database itself
    (other than a missing row) are not modelled. */
module Projects {
  import opened Wrappers
  import opened Text
  import opened Json
  import opened BuildModel

  const Private: string := "private"
  const DefaultBucket: string := "borderless-coding"

  datatype Project = Project(
    id: Uuid,
    ownerId: Uuid,
    name: string,
    description: Option<string>,
    visibility: string,
    rootBucket: string,
    rootPrefix: string,
    quotaBytes: int,
    meta: Option<map<string, Json>>,
    version: int,
    createdAt: Time,
    updatedAt: Time,
    deleted: bool)

  type Table = map<Uuid, Project>

  datatype ProjectError =
    | NameRequired
    | OwnerRequired
    | OwnerNotFound
    | NameExists
    | DuplicateId
    | NotFound

  /** `Project.BeforeCreate`: the models' ID rule, both times stamped
      with the insertion time, nothing else touched. */
  function BeforeCreate(p: Project, newId: Uuid, now: Time): (r: Project)
    ensures r.id == AssignId(p.id, newId)
    ensures r.createdAt == now && r.updatedAt == r.createdAt
    ensures r.(id := p.id, createdAt := p.createdAt, updatedAt := p.updatedAt) == p
  {
    p.(id := AssignId(p.id, newId), createdAt := now, updatedAt := now)
  }

  /** A live project of `owner` named `name`, other than `except`. */
  predicate NameTaken(rows: Table, owner: Uuid, name: string, except: Option<Uuid>) {
    exists k :: k in rows && !rows[k].deleted && rows[k].ownerId == owner && rows[k].name == name &&
                (except.Some? ==> k != except.value)
  }

  /** No two live projects of one owner share a name. */
  predicate NamesUnique(rows: Table) {
    forall a, b ::
      (a in rows && b in rows && !rows[a].deleted && !rows[b].deleted &&
       rows[a].ownerId == rows[b].ownerId && rows[a].name == rows[b].name) ==> a == b
  }

  /** The storage prefix of a project. */
  function PrefixFor(owner: Uuid, id: Uuid): string {
    "users/" + owner + "/projects/" + id + "/"
  }

  /** The defaults `CreateProject` fills in, with the prefix naming
      `prefixId`. */
  function WithDefaults(p: Project, prefixId: Uuid): (r: Project)
    ensures r.meta.Some? && (p.meta.Some? ==> r.meta == p.meta)
    ensures r.rootBucket == (if p.rootBucket == "" then DefaultBucket else p.rootBucket)
    ensures r.rootPrefix == (if p.rootPrefix == "" then PrefixFor(p.ownerId, prefixId) else p.rootPrefix)
    ensures r.(meta := p.meta, rootBucket := p.rootBucket, rootPrefix := p.rootPrefix) == p
  {
    p.(meta := if p.meta.None? then Some(map[]) else p.meta,
       rootBucket := if p.rootBucket == "" then DefaultBucket else p.rootBucket,
       rootPrefix := if p.rootPrefix == "" then PrefixFor(p.ownerId, prefixId) else p.rootPrefix)
  }

  /** The checks `CreateProject` makes before inserting. */
  function CreateChecks(users: set<Uuid>, rows: Table, p: Project): (r: Option<ProjectError>)
    ensures p.name == "" ==> r == Some(NameRequired)
    ensures p.name != "" && p.ownerId == NilUuid ==> r == Some(OwnerRequired)
    ensures r.None? <==> p.name != "" && p.ownerId != NilUuid && p.ownerId in users &&
                         !NameTaken(rows, p.ownerId, p.name, None)
  {
    if p.name == "" then Some(NameRequired)
    else if p.ownerId == NilUuid then Some(OwnerRequired)
    else if p.ownerId !in users then Some(OwnerNotFound)
    else if NameTaken(rows, p.ownerId, p.name, None) then Some(NameExists)
    else None
  }

  /** The column defaults of the `projects` table that the insert fills
      into zero-valued fields: visibility "private" and version 1. The
      other defaulted columns (quota 0, meta `{}`) are either zero already
      or filled by `WithDefaults`. */
  function ColumnDefaults(p: Project): (r: Project)
    ensures r.visibility != "" && r.version != 0
    ensures p.visibility != "" ==> r.visibility == p.visibility
    ensures p.version != 0 ==> r.version == p.version
    ensures r.(visibility := p.visibility, version := p.version) == p
  {
    p.(visibility := if p.visibility == "" then Private else p.visibility,
       version := if p.version == 0 then 1 else p.version)
  }

  /** Insert a created row with its column defaults, failing on a
      primary-key clash; the caller's copy receives the defaults too. */
  function Insert(rows: Table, created: Project): (r: Result<(Table, Project), ProjectError>)
    ensures r.Success? <==> created.id !in rows
    ensures r.Success? ==> var c := r.value.1;
              c.id == created.id && r.value.0 == rows[c.id := c] &&
              (created.visibility == "" ==> c.visibility == Private) &&
              (created.version == 0 ==> c.version == 1) &&
              c.(visibility := created.visibility, version := created.version) == created
  {
    if created.id in rows then Failure(DuplicateId)
    else
      var c := ColumnDefaults(created);
      Success((rows[c.id := c], c))
  }

  /** `CreateProject` as written: the default prefix is built from
      `p.id` as the caller passed it, before `BeforeCreate` assigns a
      fresh ID, so a caller that leaves the ID nil (as the HTTP handler
      does) gets the nil UUID in the prefix. */
  function CreateProject(users: set<Uuid>, rows: Table, p: Project, newId: Uuid, now: Time)
    : (r: Result<(Table, Project), ProjectError>)
    ensures CreateChecks(users, rows, p).Some? ==> r == Failure(CreateChecks(users, rows, p).value)
    ensures r.Success? ==> CreateChecks(users, rows, p).None?
    ensures r.Success? ==> var c := r.value.1;
              c == ColumnDefaults(BeforeCreate(WithDefaults(p, p.id), newId, now)) &&
              r.value.0 == rows[c.id := c] && c.id !in rows
  {
    match CreateChecks(users, rows, p)
    case Some(e) => Failure(e)
    case None => Insert(rows, BeforeCreate(WithDefaults(p, p.id), newId, now))
  }

  /** The ID a created row ends up with. */
  function AssignedId(p: Project, newId: Uuid): Uuid {
    if p.id == NilUuid then newId else p.id
  }

  /** With the ID left nil, the stored prefix names the nil UUID rather
      than the project. */
  lemma NilIdPrefix(users: set<Uuid>, rows: Table, p: Project, newId: Uuid, now: Time)
    requires p.id == NilUuid && p.rootPrefix == "" && newId != NilUuid
    requires CreateProject(users, rows, p, newId, now).Success?
    ensures var c := CreateProject(users, rows, p, newId, now).value.1;
            c.id == newId && c.rootPrefix == PrefixFor(p.ownerId, NilUuid) &&
            c.rootPrefix != PrefixFor(c.ownerId, c.id)
  {
    PrefixForInjective(p.ownerId, NilUuid, newId);
  }

  /** Different ids give different prefixes. */
  lemma PrefixForInjective(owner: Uuid, a: Uuid, b: Uuid)
    ensures PrefixFor(owner, a) == PrefixFor(owner, b) ==> a == b
  {
    var pre := "users/" + owner + "/projects/";
    assert PrefixFor(owner, a) == pre + a + "/";
    assert PrefixFor(owner, b) == pre + b + "/";
    if PrefixFor(owner, a) == PrefixFor(owner, b) {
      assert |a| == |b|;
      assert a == (pre + a + "/")[|pre|..|pre| + |a|];
      assert b == (pre + b + "/")[|pre|..|pre| + |b|];
    }
  }

  /** `CreateProject` with the ID assigned before the prefix is built. */
  function CreateProjectAssigned(users: set<Uuid>, rows: Table, p: Project, newId: Uuid, now: Time)
    : (r: Result<(Table, Project), ProjectError>)
    ensures CreateChecks(users, rows, p).Some? ==> r == Failure(CreateChecks(users, rows, p).value)
    ensures r.Success? ==> CreateChecks(users, rows, p).None?
    ensures r.Success? ==> var c := r.value.1;
              c.id == AssignedId(p, newId) && r.value.0 == rows[c.id := c] && c.id !in rows &&
              c.createdAt == now && c.updatedAt == now &&
              (p.rootPrefix == "" ==> c.rootPrefix == PrefixFor(c.ownerId, c.id)) &&
              (p.rootPrefix != "" ==> c.rootPrefix == p.rootPrefix) &&
              c.rootBucket != "" && c.meta.Some? && c.visibility != "" && c.version != 0
  {
    match CreateChecks(users, rows, p)
    case Some(e) => Failure(e)
    case None =>
      var id := AssignedId(p, newId);
      Insert(rows, BeforeCreate(WithDefaults(p.(id := id), id), newId, now))
  }

  /** Creating keeps live names unique per owner. */
  lemma CreateKeepsNamesUnique(users: set<Uuid>, rows: Table, p: Project, newId: Uuid, now: Time)
    requires NamesUnique(rows)
    ensures var r := CreateProjectAssigned(users, rows, p, newId, now);
            r.Success? ==> NamesUnique(r.value.0)
    ensures var r := CreateProject(users, rows, p, newId, now);
            r.Success? ==> NamesUnique(r.value.0)
  {
    var r := CreateProjectAssigned(users, rows, p, newId, now);
    if r.Success? {
      var c := r.value.1;
      assert c.ownerId == p.ownerId && c.name == p.name;
      AddKeepsUnique(rows, c);
    }
    var q := CreateProject(users, rows, p, newId, now);
    if q.Success? {
      var c := q.value.1;
      assert c.ownerId == p.ownerId && c.name == p.name;
      AddKeepsUnique(rows, c);
    }
  }

  lemma AddKeepsUnique(rows: Table, c: Project)
    requires NamesUnique(rows) && c.id !in rows && !NameTaken(rows, c.ownerId, c.name, None)
    ensures NamesUnique(rows[c.id := c])
  {
    var t := rows[c.id := c];
    forall a, b | a in t && b in t && !t[a].deleted && !t[b].deleted &&
                  t[a].ownerId == t[b].ownerId && t[a].name == t[b].name
      ensures a == b
    {
    }
  }

  // ----- updating ------------------------------------------------------------

  /** The columns an update may set; absent means untouched. */
  datatype Updates = Updates(name: Option<string>, description: Option<string>, visibility: Option<string>,
                             quotaBytes: Option<int>, meta: Option<map<string, Json>>)

  function Apply(p: Project, u: Updates, version: int, now: Time): (r: Project)
    ensures r.version == version && r.updatedAt == now
    ensures r.name == (if u.name.Some? then u.name.value else p.name)
    ensures r.id == p.id && r.ownerId == p.ownerId && r.deleted == p.deleted
    ensures r.rootBucket == p.rootBucket && r.rootPrefix == p.rootPrefix && r.createdAt == p.createdAt
  {
    p.(name := u.name.GetOr(p.name),
       description := if u.description.Some? then u.description else p.description,
       visibility := u.visibility.GetOr(p.visibility),
       quotaBytes := u.quotaBytes.GetOr(p.quotaBytes),
       meta := if u.meta.Some? then u.meta else p.meta,
       version := version,
       updatedAt := now)
  }

  /** `UpdateProject`: a live project only; a new name must not be the
      name of another live project of the same owner; the version becomes
      the stored one plus one. */
  function UpdateProject(rows: Table, id: Uuid, u: Updates, now: Time): (r: Result<Table, ProjectError>)
    ensures !(id in rows && !rows[id].deleted) ==> r == Failure(NotFound)
    ensures (id in rows && !rows[id].deleted && u.name.Some? &&
             NameTaken(rows, rows[id].ownerId, u.name.value, Some(id))) ==> r == Failure(NameExists)
    ensures r.Success? ==> (id in rows && r.value.Keys == rows.Keys &&
                            r.value[id].version == rows[id].version + 1 &&
                            (forall k :: k in rows && k != id ==> r.value[k] == rows[k]))
  {
    if !(id in rows && !rows[id].deleted) then Failure(NotFound)
    else if u.name.Some? && NameTaken(rows, rows[id].ownerId, u.name.value, Some(id)) then Failure(NameExists)
    else Success(rows[id := Apply(rows[id], u, rows[id].version + 1, now)])
  }

  /** Updating keeps live names unique per owner. */
  lemma UpdateKeepsNamesUnique(rows: Table, id: Uuid, u: Updates, now: Time)
    requires NamesUnique(rows)
    ensures var r := UpdateProject(rows, id, u, now);
            r.Success? ==> NamesUnique(r.value)
  {
    var r := UpdateProject(rows, id, u, now);
    if r.Success? {
      var t := r.value;
      forall a, b | a in t && b in t && !t[a].deleted && !t[b].deleted &&
                    t[a].ownerId == t[b].ownerId && t[a].name == t[b].name
        ensures a == b
      {
      }
    }
  }

  /** `DeleteProject`: a soft delete of a live project. */
  function DeleteProject(rows: Table, id: Uuid): (r: Result<Table, ProjectError>)
    ensures r.Failure? <==> !(id in rows && !rows[id].deleted)
    ensures r.Success? ==> r.value == rows[id := rows[id].(deleted := true)]
  {
    if id in rows && !rows[id].deleted then Success(rows[id := rows[id].(deleted := true)])
    else Failure(NotFound)
  }

  /** A deleted project's name is free again for its owner. */
  lemma DeleteFreesName(rows: Table, id: Uuid)
    requires NamesUnique(rows) && id in rows && !rows[id].deleted
    ensures var t := DeleteProject(rows, id).value;
            NamesUnique(t) && !NameTaken(t, rows[id].ownerId, rows[id].name, None)
  {
    var t := DeleteProject(rows, id).value;
    assert forall k :: k in t && k != id ==> t[k] == rows[k];
  }

  // ----- slugs -------------------------------------------------------------------

  /** `for strings.Contains(slug, "--") { slug = strings.ReplaceAll(slug, "--", "-") }`. */
  function CollapseHyphens(s: string): (r: string)
    ensures !ContainsSub(r, "--")
    decreases |s|
  {
    if ContainsSub(s, "--") then
      ReplaceAllShrinks(s, "--", "-");
      CollapseHyphens(ReplaceAll(s, "--", "-"))
    else s
  }

  /** Lower-case, with spaces and underscores turned into hyphens. */
  function Hyphenate(name: string): string {
    ReplaceAll(ReplaceAll(ToLower(name), " ", "-"), "_", "-")
  }

  /** `GenerateSlug`. */
  function GenerateSlug(name: string): string {
    Trim(CollapseHyphens(Hyphenate(name)), '-')
  }

  predicate NoUpper(s: string) {
    forall i :: 0 <= i < |s| ==> !IsUpperAscii(s[i])
  }

  /** What a slug looks like. */
  predicate IsSlug(s: string) {
    NoUpper(s) && ' ' !in s && '_' !in s && !ContainsSub(s, "--") &&
    (|s| > 0 ==> s[0] != '-' && s[|s| - 1] != '-')
  }

  lemma {:induction false} CollapseKeepsAbsent(s: string, c: char)
    requires c !in s && c != '-'
    ensures c !in CollapseHyphens(s)
    decreases |s|
  {
    if ContainsSub(s, "--") {
      ReplaceAllShrinks(s, "--", "-");
      ReplaceAllKeepsAbsent(s, "--", "-", c);
      CollapseKeepsAbsent(ReplaceAll(s, "--", "-"), c);
    }
  }

  /** An occurrence in a slice is an occurrence in the string. */
  lemma SubOfSlice(s: string, sub: string, i: nat, j: nat)
    requires i <= j <= |s| && ContainsSub(s[i..j], sub)
    ensures ContainsSub(s, sub)
  {
    var t := s[i..j];
    var k := ContainsSubWitness(t, sub);
    assert |t| == j - i && k + |sub| <= |t|;
    forall m | 0 <= m < |sub|
      ensures s[i + k..i + k + |sub|][m] == sub[m]
    {
      assert t[k..k + |sub|][m] == t[k + m] == s[i + k + m];
    }
    assert s[i + k..i + k + |sub|] == sub;
    ContainsSubAt(s, sub, i + k);
  }

  lemma NoSubInSlice(s: string, sub: string, i: nat, j: nat)
    requires !ContainsSub(s, sub) && i <= j <= |s|
    ensures !ContainsSub(s[i..j], sub)
  {
    if ContainsSub(s[i..j], sub) {
      SubOfSlice(s, sub, i, j);
    }
  }

  /** Trimming keeps a slice of the string. */
  lemma TrimIsSlice(s: string, c: char) returns (i: nat, j: nat)
    ensures i <= j <= |s| && Trim(s, c) == s[i..j]
  {
    var l := TrimLeft(s, c);
    var r := TrimRight(l, c);
    i := |s| - |l|;
    j := i + |r|;
    assert l == s[i..];
    assert r == l[..|r|];
    assert l[..|r|] == s[i..j];
  }

  /** A character other than '-' that the lower-cased name lacks stays
      out until trimming. */
  lemma StagesKeepAbsent(name: string, ch: char)
    requires ch !in ToLower(name) && ch != '-'
    ensures ch !in CollapseHyphens(Hyphenate(name))
  {
    var lower := ToLower(name);
    ReplaceAllKeepsAbsent(lower, " ", "-", ch);
    ReplaceAllKeepsAbsent(ReplaceAll(lower, " ", "-"), "_", "-", ch);
    CollapseKeepsAbsent(Hyphenate(name), ch);
  }

  /** Before trimming: no upper-case ASCII, spaces, underscores or doubled
      hyphens. */
  lemma UntrimmedShape(name: string)
    ensures var u := CollapseHyphens(Hyphenate(name));
            NoUpper(u) && ' ' !in u && '_' !in u && !ContainsSub(u, "--")
  {
    var lower := ToLower(name);
    var u := CollapseHyphens(Hyphenate(name));
    forall k | 0 <= k < |u|
      ensures !IsUpperAscii(u[k])
    {
      if IsUpperAscii(u[k]) {
        StagesKeepAbsent(name, u[k]);
      }
    }
    assert [' '] == " " && ['_'] == "_";
    ReplaceAllRemovesChar(lower, ' ', "-");
    ReplaceAllKeepsAbsent(ReplaceAll(lower, " ", "-"), "_", "-", ' ');
    CollapseKeepsAbsent(Hyphenate(name), ' ');
    ReplaceAllRemovesChar(ReplaceAll(lower, " ", "-"), '_', "-");
    CollapseKeepsAbsent(Hyphenate(name), '_');
  }

  /** Every generated slug has no upper-case ASCII letters, no spaces or
      underscores, no doubled hyphen and no hyphen at either end. */
  lemma SlugShape(name: string)
    ensures IsSlug(GenerateSlug(name))
  {
    var u := CollapseHyphens(Hyphenate(name));
    UntrimmedShape(name);
    var i, j := TrimIsSlice(u, '-');
    SliceKeepsShape(u, i, j);
    TrimEnds(u, '-');
  }

  /** A slice keeps the character-level shape of a slug. */
  lemma SliceKeepsShape(u: string, i: nat, j: nat)
    requires i <= j <= |u|
    requires NoUpper(u) && ' ' !in u && '_' !in u && !ContainsSub(u, "--")
    ensures var v := u[i..j];
            NoUpper(v) && ' ' !in v && '_' !in v && !ContainsSub(v, "--")
  {
    var v := u[i..j];
    assert forall k :: 0 <= k < |v| ==> v[k] == u[i + k];
    NoSubInSlice(u, "--", i, j);
  }

  lemma TrimEnds(s: string, c: char)
    ensures var t := Trim(s, c); |t| > 0 ==> t[0] != c && t[|t| - 1] != c
  {
    var l := TrimLeft(s, c);
    var r := TrimRight(l, c);
    assert r == l[..|r|];
  }

  lemma CharOfSub(s: string, c: char)
    requires ContainsSub(s, [c])
    ensures c in s
  {
    var k := ContainsSubWitness(s, [c]);
    assert s[k] == s[k..k + 1][0];
  }

  lemma NoSubOfChar(s: string, c: char)
    requires c !in s
    ensures !ContainsSub(s, [c])
  {
    if ContainsSub(s, [c]) {
      CharOfSub(s, c);
    }
  }

  /** Slugging a slug changes nothing. */
  lemma SlugFixed(s: string)
    requires IsSlug(s)
    ensures GenerateSlug(s) == s
  {
    assert ToLower(s) == s;
    NoSubOfChar(s, ' ');
    NoSubOfChar(s, '_');
    ReplaceAllAbsent(s, " ", "-");
    ReplaceAllAbsent(s, "_", "-");
    assert TrimLeft(s, '-') == s;
    assert TrimRight(s, '-') == s;
  }

  /** `GenerateSlug` is idempotent. */
  lemma SlugIdempotent(name: string)
    ensures GenerateSlug(GenerateSlug(name)) == GenerateSlug(name)
  {
    SlugShape(name);
    SlugFixed(GenerateSlug(name));
  }
}
