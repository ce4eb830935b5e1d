/**
 What each call on the draft documents does, read off the rows alone: exactly when it succeeds,
 which error it gives otherwise, and every row it leaves behind.
 */
module DraftCalls {
  import opened Basics
  import opened ProseMirror
  import opened Drafts
  import Text
  import Slugs

  /** The user's own page that is not deleted. */
  ghost predicate Owns(db: Db, user: User, id: Id) {
    id < |db.pages| && db.pages[id].owner == user && db.pages[id].deletedAt == None
  }

  ghost predicate OwnsIn(db: Db, user: User, space: Id, id: Id) {
    Owns(db, user, id) && db.pages[id].space == space
  }

  /** A page of the space that is not deleted has this slug. */
  ghost predicate SlugTaken(db: Db, space: Id, slug: string) {
    exists i ::
      && 0 <= i < |db.pages| && db.pages[i].space == space && db.pages[i].deletedAt == None
      && db.pages[i].slug == slug
  }

  ghost predicate FirstFreeSlug(db: Db, space: Id, base: string, slug: string) {
    exists n: nat ::
      && slug == Slugs.Candidate(base, n) && !SlugTaken(db, space, slug)
      && forall k: nat | k < n :: SlugTaken(db, space, Slugs.Candidate(base, k))
  }

  /** The slug of a page: the first free candidate after the slugified title, or "untitled" where that is empty. */
  lemma PageSlugExact(cfg: Config, db: Db, space: Id, title: string)
    ensures var s := cfg.slugify(title);
      FirstFreeSlug(db, space, if s == "" then "untitled" else s, PageSlug(cfg, db, space, title))
  {
    var base := BaseSlug(cfg, title, "untitled");
    var taken := LiveSlugs(db.pages, space);
    forall slug ensures slug in taken <==> SlugTaken(db, space, slug) {
    }
    var n := Slugs.FreeIndex(base, taken);
    assert forall k: nat | k < n :: Slugs.Candidate(base, k) in taken;
  }

  /** A new space takes the first slug its owner does not use yet, after the slugified name or "workspace". */
  lemma CreateSpaceExact(cfg: Config, db: Db, user: User, name: string)
    ensures var s := cfg.slugify(name);
      var base := if s == "" then "workspace" else s;
      exists n: nat ::
        && (forall k: nat | k < n :: (user, Slugs.Candidate(base, k)) in db.spaces)
        && (user, Slugs.Candidate(base, n)) !in db.spaces
        && CreateSpace(cfg, db, user, name)
           == (db.(spaces := db.spaces[(user, Slugs.Candidate(base, n)) := |db.spaces|]), Ok(|db.spaces|))
  {
    var base := BaseSlug(cfg, name, "workspace");
    var taken := OwnerSlugs(db.spaces, user);
    forall slug ensures slug in taken <==> (user, slug) in db.spaces {
      assert (user, slug) in db.spaces ==> (user, slug).1 in taken;
    }
    var n := Slugs.FreeIndex(base, taken);
    assert forall k: nat | k < n :: Slugs.Candidate(base, k) in taken;
  }

  // ----- Pages

  /** The page comes right after the last of its live siblings, or first. */
  ghost predicate ComesLast(db: Db, space: Id, parent: Option<Id>, position: int) {
    if exists i :: IsSibling(db, space, parent, i) then
      && (forall i | IsSibling(db, space, parent, i) :: db.pages[i].position < position)
      && exists i :: IsSibling(db, space, parent, i) && db.pages[i].position == position - 1
    else position == 0
  }

  ghost predicate IsSibling(db: Db, space: Id, parent: Option<Id>, i: int) {
    0 <= i < |db.pages| && db.pages[i].space == space && db.pages[i].parent == parent && db.pages[i].deletedAt == None
  }

  lemma PositionExact(db: Db, space: Id, parent: Option<Id>)
    ensures var last := LastPosition(db.pages, space, parent);
      ComesLast(db, space, parent, if last.Some? then last.value + 1 else 0)
  {
    forall i | 0 <= i < |db.pages|
      ensures Sibling(db.pages[i], space, parent) <==> IsSibling(db, space, parent, i)
    {
    }
    var last := LastPosition(db.pages, space, parent);
    if last.Some? {
      var i :| 0 <= i < |db.pages| && Sibling(db.pages[i], space, parent) && db.pages[i].position == last.value;
      assert IsSibling(db, space, parent, i);
    }
  }

  lemma CreatePageErrors(cfg: Config, db: Db, user: User, slug: string, dto: CreateDto, now: int)
    ensures var (db', r) := CreatePage(cfg, db, user, slug, dto, now);
      var spaceOk := (user, slug) in db.spaces;
      var parentOk := spaceOk && (dto.parent.Some? ==> OwnsIn(db, user, db.spaces[(user, slug)], dto.parent.value));
      var documentOk :=
        dto.document.Some? ==> dto.document.value < |db.documents| && db.documents[dto.document.value] == user;
      && (r == Err(SpaceNotFound) <==> !spaceOk)
      && (r == Err(InvalidParent) <==> spaceOk && !parentOk)
      && (r == Err(InvalidDocument) <==> parentOk && !documentOk)
      && (r == Ok(|db.pages|) <==> parentOk && documentOk)
      && (r.Err? ==> db' == db)
  {
  }

  /** A created page: every column, its place and slug, and a first version exactly if content was given. */
  lemma CreatePageExact(cfg: Config, db: Db, user: User, slug: string, dto: CreateDto, now: int)
    requires CreatePage(cfg, db, user, slug, dto, now).1.Ok?
    ensures var db' := CreatePage(cfg, db, user, slug, dto, now).0;
      var s, id := cfg.slugify(dto.title), |db.pages|;
      && |db'.pages| == id + 1
      && var p := db'.pages[id];
      && p.title == dto.title && p.parent == dto.parent && p.document == dto.document
      && p.owner == user && p.space == db.spaces[(user, slug)] && p.status == DRAFT && p.deletedAt == None
      && p.content ==
         (if dto.content.Some? then dto.content.value else JObj(map["type" := JStr("doc"), "content" := JArr([])]))
      && FirstFreeSlug(db, p.space, if s == "" then "untitled" else s, p.slug)
      && ComesLast(db, p.space, p.parent, p.position)
      && db' == db.(pages := db.pages + [p], versions := db'.versions)
      && (dto.content.None? ==> db'.versions == db.versions)
      && (dto.content.Some? ==>
            db'.versions == db.versions + [Version(id, user, dto.content.value, now, AtCreate, None)])
  {
    PageSlugExact(cfg, db, db.spaces[(user, slug)], dto.title);
    PositionExact(db, db.spaces[(user, slug)], dto.parent);
  }

  lemma UpdatePageErrors(cfg: Config, db: Db, user: User, slug: string, id: Id, dto: UpdateDto, now: int)
    ensures var (db', r) := UpdatePage(cfg, db, user, slug, id, dto, now);
      var spaceOk := (user, slug) in db.spaces;
      var pageOk := spaceOk && OwnsIn(db, user, db.spaces[(user, slug)], id);
      var open := pageOk && db.pages[id].status != FINALIZED;
      var newParent := open && dto.parent.Set? && Some(dto.parent.value) != db.pages[id].parent;
      var foreign := newParent && !OwnsIn(db, user, db.pages[id].space, dto.parent.value);
      && (r == Err(SpaceNotFound) <==> !spaceOk)
      && (r == Err(PageNotFound) <==> spaceOk && !pageOk)
      && (r == Err(PageLocked) <==> pageOk && !open)
      && (r == Err(OwnParent) <==> newParent && dto.parent.value == id)
      && (r == Err(InvalidParent) <==> foreign && dto.parent.value != id)
      && (r == Ok(id) <==> open && (newParent ==> dto.parent.value != id && !foreign))
      && (r.Err? ==> db' == db)
  {
  }

  /**
   An update stores each given field and keeps each other one, a null parent clears the parent,
   new content moves a DRAFT along, and a given status has the last word.
   */
  lemma UpdatePageExact(cfg: Config, db: Db, user: User, slug: string, id: Id, dto: UpdateDto, now: int)
    requires UpdatePage(cfg, db, user, slug, id, dto, now).1.Ok?
    ensures var db' := UpdatePage(cfg, db, user, slug, id, dto, now).0;
      && id < |db.pages| && |db'.pages| == |db.pages|
      && var (p, q) := (db.pages[id], db'.pages[id]);
      && (dto.title.None? ==> q.title == p.title && q.slug == p.slug)
      && (dto.title.Some? ==>
            var s := cfg.slugify(dto.title.value);
            q.title == dto.title.value && FirstFreeSlug(db, p.space, if s == "" then "untitled" else s, q.slug))
      && q.position == (if dto.position.Some? then dto.position.value else p.position)
      && q.content == (if dto.content.Some? then dto.content.value else p.content)
      && (dto.parent.Unset? ==> q.parent == p.parent)
      && (dto.parent.Null? ==> q.parent == None)
      && (dto.parent.Set? ==> q.parent == Some(dto.parent.value))
      && (dto.status.Some? ==> q.status == dto.status.value)
      && (dto.status.None? && dto.content.Some? && p.status == DRAFT ==> q.status == IN_PROGRESS)
      && (dto.status.None? && (dto.content.None? || p.status != DRAFT) ==> q.status == p.status)
      && q == p.(title := q.title, slug := q.slug, position := q.position, content := q.content, parent := q.parent,
                 status := q.status)
      && db' == db.(pages := db.pages[id := q], versions := db'.versions)
  {
    if dto.title.Some? {
      PageSlugExact(cfg, db, db.pages[id].space, dto.title.value);
    }
  }

  /** An update adds its content as a version exactly if every version of the page is older than a minute. */
  lemma AutoSaveExact(cfg: Config, db: Db, user: User, slug: string, id: Id, dto: UpdateDto, now: int)
    requires UpdatePage(cfg, db, user, slug, id, dto, now).1.Ok?
    ensures var versions := UpdatePage(cfg, db, user, slug, id, dto, now).0.versions;
      var due :=
        forall i | 0 <= i < |db.versions| && db.versions[i].page == id :: db.versions[i].createdAt + 60000 < now;
      versions ==
        if dto.content.Some? && due then db.versions + [Version(id, user, dto.content.value, now, AutoSave, None)]
        else db.versions
  {
    var newest := NewestVersion(db.versions, id);
    if newest.Some? {
      var i :| 0 <= i < |db.versions| && db.versions[i].page == id && db.versions[i].createdAt == newest.value;
    }
  }

  /** A soft delete stamps exactly the one page. */
  lemma SoftDeleteExact(db: Db, user: User, slug: string, id: Id, now: int)
    ensures var (db', r) := SoftDelete(db, user, slug, id, now);
      var spaceOk := (user, slug) in db.spaces;
      var pageOk := spaceOk && OwnsIn(db, user, db.spaces[(user, slug)], id);
      && (r == Err(SpaceNotFound) <==> !spaceOk)
      && (r == Err(PageNotFound) <==> spaceOk && !pageOk)
      && (r == Ok(id) <==> pageOk)
      && db' == if pageOk then db.(pages := db.pages[id := db.pages[id].(deletedAt := Some(now))]) else db
  {
  }

  // ----- Finalizing, versions

  ghost function DocumentsOf(db: Db, user: User): set<int> {
    set i | 0 <= i < |db.documents| && db.documents[i] == user
  }

  lemma {:induction false} DocumentCountExact(db: Db, user: User)
    ensures DocumentCount(db.documents, user) == |DocumentsOf(db, user)|
    decreases |db.documents|
  {
    if db.documents != [] {
      var n := |db.documents| - 1;
      var rest := db.(documents := db.documents[..n]);
      DocumentCountExact(rest, user);
      assert DocumentsOf(db, user) == DocumentsOf(rest, user) + if db.documents[n] == user then {n} else {};
    }
  }

  lemma FinalizeErrors(cfg: Config, db: Db, user: User, id: Id, docType: Option<Id>, uploads: bool, now: int)
    ensures var (db', r) := FinalizePage(cfg, db, user, id, docType, uploads, now);
      var pageOk, room := Owns(db, user, id), |DocumentsOf(db, user)| < cfg.maxDocuments;
      && (r == Err(PageNotFound) <==> !pageOk)
      && (r == Err(DocumentLimit) <==> pageOk && !room)
      && (r == Err(InvalidDocumentType) <==> pageOk && room && docType.Some? && docType.value !in cfg.documentTypes)
      && (r == Err(NoDocumentType) <==> pageOk && room && docType.None? && cfg.defaultType.None?)
      && (r == Err(UploadFailed) <==>
            && pageOk && room && !uploads
            && (docType.Some? ==> docType.value in cfg.documentTypes) && (docType.None? ==> cfg.defaultType.Some?))
      && (r == Ok(|db.documents|) <==>
            && pageOk && room && uploads
            && (docType.Some? ==> docType.value in cfg.documentTypes) && (docType.None? ==> cfg.defaultType.Some?))
      && (r.Err? ==> db' == if pageOk then db.(profiles := db.profiles + {user}) else db)
  {
    DocumentCountExact(db, user);
  }

  /** A finalize adds the document, links and locks the page, touches nothing else of it, and keeps a snapshot. */
  lemma FinalizeExact(cfg: Config, db: Db, user: User, id: Id, docType: Option<Id>, uploads: bool, now: int)
    requires FinalizePage(cfg, db, user, id, docType, uploads, now).1.Ok?
    ensures var db', document := FinalizePage(cfg, db, user, id, docType, uploads, now).0, |db.documents|;
      && id < |db.pages|
      && db' == db.(
           profiles := db.profiles + {user},
           documents := db.documents + [user],
           pages := db.pages[id := db.pages[id].(status := FINALIZED, document := Some(document))],
           versions := db.versions + [Version(id, user, db.pages[id].content, now, AtFinalize, Some(document))])
  {
  }

  /** An unlock needs no particular status, and changes the status alone. */
  lemma UnlockExact(db: Db, user: User, id: Id)
    ensures Unlock(db, user, id) ==
      if Owns(db, user, id) then (db.(pages := db.pages[id := db.pages[id].(status := IN_PROGRESS)]), Ok(id))
      else (db, Err(PageNotFound))
  {
  }

  /** A revert takes a version of this page, stored by this user, and brings back its content. */
  lemma RevertExact(db: Db, user: User, id: Id, version: Id, now: int)
    ensures var (db', r) := Revert(db, user, id, version, now);
      var pageOk := Owns(db, user, id);
      var open := pageOk && db.pages[id].status != FINALIZED;
      var versionOk := version < |db.versions| && db.versions[version].page == id && db.versions[version].user == user;
      && (r == Err(PageNotFound) <==> !pageOk)
      && (r == Err(PageLocked) <==> pageOk && !open)
      && (r == Err(VersionNotFound) <==> open && !versionOk)
      && (r == Ok(id) <==> open && versionOk)
      && (r.Err? ==> db' == db)
      && (r.Ok? ==>
            var content := db.versions[version].content;
            db' == db.(
              pages := db.pages[id := db.pages[id].(content := content, status := IN_PROGRESS)],
              versions := db.versions + [Version(id, user, content, now, AtRevert, None)]))
  {
  }

  // ----- Proposals

  lemma ProposeExact(db: Db, user: User, page: Id, original: string, suggested: string)
    ensures Propose(db, user, page, original, suggested) ==
      if Owns(db, user, page) then
        (db.(proposals := db.proposals + [Proposal(page, user, original, suggested, PENDING, None)]),
         Ok(|db.proposals|))
      else (db, Err(PageNotFound))
  {
  }

  ghost predicate OwnPending(db: Db, user: User, id: Id) {
    id < |db.proposals| && db.proposals[id].user == user && db.proposals[id].status == PENDING
  }

  /** Some text node of the tree contains the phrase. */
  ghost predicate SomeTextHas(node: Json, phrase: string) {
    exists t, i :: t in Texts(node) && Text.OccursAt(t, phrase, i)
  }

  /** An accept: exactly when it succeeds, and the three rows it then writes. */
  lemma AcceptExact(db: Db, user: User, id: Id, now: int)
    ensures var (db', r) := Accept(db, user, id, now);
      var pending := OwnPending(db, user, id);
      var pageOk := pending && Owns(db, user, db.proposals[id].page);
      var found :=
        pageOk && SomeTextHas(db.pages[db.proposals[id].page].content, db.proposals[id].original);
      && (r == Err(NotPending) <==> !pending)
      && (r == Err(PageNotFound) <==> pending && !pageOk)
      && (r == Err(TextNotFound) <==> pageOk && !found)
      && (r == Ok(id) <==> found)
      && (r.Err? ==> db' == db)
      && (r.Ok? ==>
            var p := db.proposals[id];
            var page := db.pages[p.page];
            var content := Rewrite(page.content, p.original, p.suggested).updated;
            && content.JObj?
            && db' == db.(
                 proposals := db.proposals[id := p.(status := ACCEPTED, appliedAt := Some(now))],
                 versions := db.versions + [Version(p.page, user, page.content, now, BeforeAccept, None)],
                 pages := db.pages[p.page := page.(content := content, status := IN_PROGRESS)]))
  {
    if OwnPending(db, user, id) && Owns(db, user, db.proposals[id].page) {
      var p := db.proposals[id];
      var texts := Texts(db.pages[p.page].content);
      RewriteMeaning(db.pages[p.page].content, p.original, p.suggested);
      NoMatches(texts, p.original);
    }
  }

  lemma RejectExact(db: Db, user: User, id: Id)
    ensures Reject(db, user, id) ==
      if OwnPending(db, user, id) then
        (db.(proposals := db.proposals[id := db.proposals[id].(status := REJECTED)]), Ok(id))
      else (db, Err(NotPending))
  {
  }
}
