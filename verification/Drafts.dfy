/**
 The draft documents of a user: pages, their version history and the AI proposals
 about them, as tables of rows and one function per service method.

 A row's id is its position in its table; no modelled operation removes a row.  Each
 function gives the tables after the call and what the call returns or throws.
 */
module Drafts {
  import opened Basics
  import opened ProseMirror
  import Slugs

  type User = nat
  type Id = nat

  /** The document of a page: a JSON object. */
  type Content = j: Json | j.JObj? witness JObj(map[])

  const EMPTY_DOCUMENT: Content := JObj(map["type" := JStr("doc"), "content" := JArr([])])

  /** Auto-save adds a version only if the newest one is older than this. */
  const SNAPSHOT_INTERVAL_MS := 60000

  datatype Status = DRAFT | IN_PROGRESS | FINALIZED | ARCHIVED

  datatype Page = Page(
    space: Id, owner: User, parent: Option<Id>, document: Option<Id>,
    title: string, slug: string, content: Content, position: int, status: Status,
    deletedAt: Option<int>)

  /** Which operation stored a version.  Only `AtFinalize` is visible in the rows, as `isFinalizedSnapshot`. */
  datatype Origin = AtCreate | AutoSave | AtRevert | BeforeAccept | AtFinalize

  datatype Version = Version(
    page: Id, user: User, content: Content, createdAt: int, origin: Origin, document: Option<Id>)

  datatype ProposalStatus = PENDING | ACCEPTED | REJECTED

  datatype Proposal = Proposal(
    page: Id, user: User, original: string, suggested: string, status: ProposalStatus, appliedAt: Option<int>)

  datatype Db = Db(
    spaces: map<(User, string), Id>,
    pages: seq<Page>,
    versions: seq<Version>,
    proposals: seq<Proposal>,
    documents: seq<User>,
    profiles: set<User>)

  const EMPTY_DB := Db(map[], [], [], [], [], {})

  /** What the operations take from outside: the slug function, the document limit and the document types. */
  datatype Config = Config(
    slugify: string -> string, maxDocuments: nat, documentTypes: set<Id>, defaultType: Option<Id>)

  datatype Error =
    | SpaceNotFound | PageNotFound | VersionNotFound
    | InvalidParent | OwnParent | InvalidDocument | PageLocked
    | DocumentLimit | InvalidDocumentType | NoDocumentType | UploadFailed
    | NotPending | TextNotFound

  type Reply = Result<Id, Error>

  datatype CreateDto = CreateDto(title: string, parent: Option<Id>, document: Option<Id>, content: Option<Content>)

  datatype UpdateDto = UpdateDto(
    title: Option<string>, content: Option<Content>, status: Option<Status>, position: Option<int>, parent: Patch<Id>)

  // ----- Queries

  predicate Live(pages: seq<Page>, id: Id) {
    id < |pages| && pages[id].deletedAt.None?
  }

  predicate OwnedLive(pages: seq<Page>, user: User, id: Id) {
    Live(pages, id) && pages[id].owner == user
  }

  predicate InSpace(pages: seq<Page>, user: User, space: Id, id: Id) {
    OwnedLive(pages, user, id) && pages[id].space == space
  }

  /** The slugs of the live pages of a space. */
  function LiveSlugs(pages: seq<Page>, space: Id): set<string> {
    set i | 0 <= i < |pages| && Live(pages, i) && pages[i].space == space :: pages[i].slug
  }

  function BaseSlug(cfg: Config, title: string, fallback: string): string {
    var s := cfg.slugify(title);
    if s == "" then fallback else s
  }

  /** The largest position among the live pages of a space with this parent. */
  function LastPosition(pages: seq<Page>, space: Id, parent: Option<Id>): (r: Option<int>)
    ensures r.None? <==> forall i | 0 <= i < |pages| :: !Sibling(pages[i], space, parent)
    ensures r.Some? ==> exists i | 0 <= i < |pages| :: Sibling(pages[i], space, parent) && pages[i].position == r.value
    ensures r.Some? ==> forall i | 0 <= i < |pages| && Sibling(pages[i], space, parent) :: pages[i].position <= r.value
  {
    if pages == [] then None
    else
      var n := |pages| - 1;
      var before := LastPosition(pages[..n], space, parent);
      if !Sibling(pages[n], space, parent) then before
      else Some(if before.Some? then Max(before.value, pages[n].position) else pages[n].position)
  }

  predicate Sibling(p: Page, space: Id, parent: Option<Id>) {
    p.deletedAt.None? && p.space == space && p.parent == parent
  }

  /** The time of the newest version of a page. */
  function NewestVersion(versions: seq<Version>, page: Id): (r: Option<int>)
    ensures r.None? <==> forall i | 0 <= i < |versions| :: versions[i].page != page
    ensures r.Some? ==> exists i | 0 <= i < |versions| :: versions[i].page == page && versions[i].createdAt == r.value
    ensures r.Some? ==> forall i | 0 <= i < |versions| && versions[i].page == page :: versions[i].createdAt <= r.value
  {
    if versions == [] then None
    else
      var n := |versions| - 1;
      var before := NewestVersion(versions[..n], page);
      if versions[n].page != page then before
      else Some(if before.Some? then Max(before.value, versions[n].createdAt) else versions[n].createdAt)
  }

  function DocumentCount(documents: seq<User>, user: User): nat {
    if documents == [] then 0
    else DocumentCount(documents[..|documents| - 1], user) + if documents[|documents| - 1] == user then 1 else 0
  }

  // ----- Spaces and pages

  ghost function CreateSpace(cfg: Config, db: Db, user: User, name: string): (Db, Reply) {
    var slug := Slugs.FreeSlug(BaseSlug(cfg, name, "workspace"), OwnerSlugs(db.spaces, user));
    (db.(spaces := db.spaces[(user, slug) := |db.spaces|]), Ok(|db.spaces|))
  }

  function OwnerSlugs(spaces: map<(User, string), Id>, user: User): set<string> {
    set k | k in spaces && k.0 == user :: k.1
  }

  ghost function PageSlug(cfg: Config, db: Db, space: Id, title: string): string {
    Slugs.FreeSlug(BaseSlug(cfg, title, "untitled"), LiveSlugs(db.pages, space))
  }

  ghost function NewPage(cfg: Config, db: Db, user: User, space: Id, dto: CreateDto): Page {
    var last := LastPosition(db.pages, space, dto.parent);
    Page(
      space, user, dto.parent, dto.document, dto.title, PageSlug(cfg, db, space, dto.title),
      if dto.content.Some? then dto.content.value else EMPTY_DOCUMENT,
      if last.Some? then last.value + 1 else 0, DRAFT, None)
  }

  ghost function CreatePage(cfg: Config, db: Db, user: User, slug: string, dto: CreateDto, now: int): (Db, Reply) {
    if (user, slug) !in db.spaces then (db, Err(SpaceNotFound))
    else
      var space := db.spaces[(user, slug)];
      if dto.parent.Some? && !InSpace(db.pages, user, space, dto.parent.value) then (db, Err(InvalidParent))
      else if dto.document.Some? &&
              !(dto.document.value < |db.documents| && db.documents[dto.document.value] == user) then
        (db, Err(InvalidDocument))
      else
        var page := NewPage(cfg, db, user, space, dto);
        var id := |db.pages|;
        var versions :=
          if dto.content.Some? then db.versions + [Version(id, user, dto.content.value, now, AtCreate, None)]
          else db.versions;
        (db.(pages := db.pages + [page], versions := versions), Ok(id))
  }

  ghost function UpdatePage(cfg: Config, db: Db, user: User, slug: string, id: Id, dto: UpdateDto, now: int):
    (Db, Reply)
  {
    if (user, slug) !in db.spaces then (db, Err(SpaceNotFound))
    else if !InSpace(db.pages, user, db.spaces[(user, slug)], id) then (db, Err(PageNotFound))
    else
      var page := db.pages[id];
      var moved := dto.parent.Set? && page.parent != Some(dto.parent.value);
      if page.status.FINALIZED? then (db, Err(PageLocked))
      else if moved && dto.parent.value == id then (db, Err(OwnParent))
      else if moved && !InSpace(db.pages, user, page.space, dto.parent.value) then (db, Err(InvalidParent))
      else
        var page' := UpdatedPage(cfg, db, page, dto);
        var versions :=
          if dto.content.Some? && SnapshotDue(db.versions, id, now) then
            db.versions + [Version(id, user, dto.content.value, now, AutoSave, None)]
          else db.versions;
        (db.(pages := db.pages[id := page'], versions := versions), Ok(id))
  }

  ghost function UpdatedPage(cfg: Config, db: Db, page: Page, dto: UpdateDto): Page {
    page.(
      title := if dto.title.Some? then dto.title.value else page.title,
      slug := if dto.title.Some? then PageSlug(cfg, db, page.space, dto.title.value) else page.slug,
      position := if dto.position.Some? then dto.position.value else page.position,
      parent := dto.parent.Over(page.parent),
      content := if dto.content.Some? then dto.content.value else page.content,
      status :=
        if dto.status.Some? then dto.status.value
        else if dto.content.Some? && page.status.DRAFT? then IN_PROGRESS
        else page.status)
  }

  predicate SnapshotDue(versions: seq<Version>, page: Id, now: int) {
    var newest := NewestVersion(versions, page);
    newest.None? || now - newest.value > SNAPSHOT_INTERVAL_MS
  }

  function SoftDelete(db: Db, user: User, slug: string, id: Id, now: int): (Db, Reply) {
    if (user, slug) !in db.spaces then (db, Err(SpaceNotFound))
    else if !InSpace(db.pages, user, db.spaces[(user, slug)], id) then (db, Err(PageNotFound))
    else (db.(pages := db.pages[id := db.pages[id].(deletedAt := Some(now))]), Ok(id))
  }

  // ----- Finalizing, versions

  function FinalizeError(cfg: Config, db: Db, user: User, docType: Option<Id>, uploads: bool): Option<Error> {
    if DocumentCount(db.documents, user) >= cfg.maxDocuments then Some(DocumentLimit)
    else if docType.Some? && docType.value !in cfg.documentTypes then Some(InvalidDocumentType)
    else if docType.None? && cfg.defaultType.None? then Some(NoDocumentType)
    else if !uploads then Some(UploadFailed)
    else None
  }

  /** `uploads` tells whether the PDF can be rendered and stored.  A missing profile row is created first. */
  function FinalizePage(cfg: Config, db: Db, user: User, id: Id, docType: Option<Id>, uploads: bool, now: int):
    (Db, Reply)
  {
    if !OwnedLive(db.pages, user, id) then (db, Err(PageNotFound))
    else
      var profiled := db.(profiles := db.profiles + {user});
      var error := FinalizeError(cfg, db, user, docType, uploads);
      if error.Some? then (profiled, Err(error.value))
      else
        var page := db.pages[id];
        var document := Some(|db.documents|);
        (profiled.(documents := db.documents + [user],
                   pages := db.pages[id := page.(status := FINALIZED, document := document)],
                   versions := db.versions + [Version(id, user, page.content, now, AtFinalize, document)]),
         Ok(|db.documents|))
  }

  function Unlock(db: Db, user: User, id: Id): (Db, Reply) {
    if !OwnedLive(db.pages, user, id) then (db, Err(PageNotFound))
    else (db.(pages := db.pages[id := db.pages[id].(status := IN_PROGRESS)]), Ok(id))
  }

  function Revert(db: Db, user: User, id: Id, version: Id, now: int): (Db, Reply) {
    if !OwnedLive(db.pages, user, id) then (db, Err(PageNotFound))
    else if db.pages[id].status.FINALIZED? then (db, Err(PageLocked))
    else if !(version < |db.versions| && db.versions[version].page == id && db.versions[version].user == user) then
      (db, Err(VersionNotFound))
    else
      var content := db.versions[version].content;
      (db.(pages := db.pages[id := db.pages[id].(content := content, status := IN_PROGRESS)],
           versions := db.versions + [Version(id, user, content, now, AtRevert, None)]),
       Ok(id))
  }

  // ----- AI proposals

  function Propose(db: Db, user: User, page: Id, original: string, suggested: string): (Db, Reply) {
    if !OwnedLive(db.pages, user, page) then (db, Err(PageNotFound))
    else
      (db.(proposals := db.proposals + [Proposal(page, user, original, suggested, PENDING, None)]),
       Ok(|db.proposals|))
  }

  predicate IsPending(db: Db, user: User, id: Id) {
    id < |db.proposals| && db.proposals[id].user == user && db.proposals[id].status.PENDING?
  }

  function Accept(db: Db, user: User, id: Id, now: int): (Db, Reply) {
    if !IsPending(db, user, id) then (db, Err(NotPending))
    else
      var proposal := db.proposals[id];
      if !OwnedLive(db.pages, user, proposal.page) then (db, Err(PageNotFound))
      else
        var page := db.pages[proposal.page];
        var rewritten := Rewrite(page.content, proposal.original, proposal.suggested);
        if rewritten.count == 0 then (db, Err(TextNotFound))
        else
          (db.(proposals := db.proposals[id := proposal.(status := ACCEPTED, appliedAt := Some(now))],
               versions := db.versions + [Version(proposal.page, user, page.content, now, BeforeAccept, None)],
               pages := db.pages[proposal.page := page.(content := rewritten.updated, status := IN_PROGRESS)]),
           Ok(id))
  }

  function Reject(db: Db, user: User, id: Id): (Db, Reply) {
    if !IsPending(db, user, id) then (db, Err(NotPending))
    else (db.(proposals := db.proposals[id := db.proposals[id].(status := REJECTED)]), Ok(id))
  }

  // ----- Runs

  datatype Op =
    | CreateSpaceOp(user: User, name: string)
    | CreatePageOp(user: User, space: string, create: CreateDto)
    | UpdatePageOp(user: User, space: string, page: Id, update: UpdateDto)
    | SoftDeleteOp(user: User, space: string, page: Id)
    | FinalizeOp(user: User, page: Id, docType: Option<Id>, uploads: bool)
    | UnlockOp(user: User, page: Id)
    | RevertOp(user: User, page: Id, version: Id)
    | ProposeOp(user: User, page: Id, original: string, suggested: string)
    | AcceptOp(user: User, proposal: Id)
    | RejectOp(user: User, proposal: Id)

  ghost function Step(cfg: Config, db: Db, op: Op, now: int): (Db, Reply) {
    match op
    case CreateSpaceOp(u, name) => CreateSpace(cfg, db, u, name)
    case CreatePageOp(u, s, dto) => CreatePage(cfg, db, u, s, dto, now)
    case UpdatePageOp(u, s, id, dto) => UpdatePage(cfg, db, u, s, id, dto, now)
    case SoftDeleteOp(u, s, id) => SoftDelete(db, u, s, id, now)
    case FinalizeOp(u, id, t, uploads) => FinalizePage(cfg, db, u, id, t, uploads, now)
    case UnlockOp(u, id) => Unlock(db, u, id)
    case RevertOp(u, id, v) => Revert(db, u, id, v, now)
    case ProposeOp(u, id, o, s) => Propose(db, u, id, o, s)
    case AcceptOp(u, id) => Accept(db, u, id, now)
    case RejectOp(u, id) => Reject(db, u, id)
  }

  /** One service call at one moment, in milliseconds. */
  datatype Event = Event(op: Op, now: int)

  /** A run from the empty database: `states[i]` is the database before `events[i]`. */
  datatype Run = Run(cfg: Config, states: seq<Db>, events: seq<Event>)
  {
    ghost predicate Valid() {
      && |states| == |events| + 1
      && states[0] == EMPTY_DB
      && (forall i | 0 <= i < |events| :: states[i + 1] == Step(cfg, states[i], events[i].op, events[i].now).0)
      && (forall i, j | 0 <= i < j < |events| :: events[i].now <= events[j].now)
    }

    ghost function ReplyOf(i: nat): Reply
      requires i < |events| && |states| == |events| + 1
    {
      Step(cfg, states[i], events[i].op, events[i].now).1
    }
  }
}
