/**
 The draft services as the code runs them: table fields that each method reads and
 reassigns step by step.  Every method is proved to do what its function in `Drafts` says,
 so the properties in `DraftRuns` are properties of these methods.
 */
module DraftService {
  import opened Basics
  import opened ProseMirror
  import opened Drafts
  import Slugs

  class Service {
    const cfg: Config
    var spaces: map<(User, string), Id>
    var pages: seq<Page>
    var versions: seq<Version>
    var proposals: seq<Proposal>
    var documents: seq<User>
    var profiles: set<User>

    ghost function Tables(): Db
      reads this
    {
      Db(spaces, pages, versions, proposals, documents, profiles)
    }

    constructor (cfg: Config)
      ensures Tables() == EMPTY_DB && this.cfg == cfg
    {
      this.cfg := cfg;
      spaces, pages, versions, proposals, documents, profiles := map[], [], [], [], [], {};
    }

    method CreateSpace(user: User, name: string) returns (r: Reply)
      modifies this
      ensures (Tables(), r) == Drafts.CreateSpace(cfg, old(Tables()), user, name)
    {
      var base := cfg.slugify(name);
      if base == "" {
        base := "workspace";
      }
      var slug, _ := Slugs.GenerateUniqueSlug(base, OwnerSlugs(spaces, user));
      var id := |spaces|;
      spaces := spaces[(user, slug) := id];
      return Ok(id);
    }

    /** The live page with this id in the named space of the user. */
    method FindBySpaceAndId(user: User, slug: string, id: Id) returns (r: Result<Page, Error>)
      ensures r == if (user, slug) !in spaces then Err(SpaceNotFound)
                   else if !InSpace(pages, user, spaces[(user, slug)], id) then Err(PageNotFound)
                   else Ok(pages[id])
    {
      if (user, slug) !in spaces {
        return Err(SpaceNotFound);
      }
      if !InSpace(pages, user, spaces[(user, slug)], id) {
        return Err(PageNotFound);
      }
      return Ok(pages[id]);
    }

    method GenerateUniqueSlug(space: Id, title: string) returns (slug: string)
      ensures slug == PageSlug(cfg, Tables(), space, title)
    {
      var base := cfg.slugify(title);
      if base == "" {
        base := "untitled";
      }
      var s, _ := Slugs.GenerateUniqueSlug(base, LiveSlugs(pages, space));
      return s;
    }

    /** The row of a new page. */
    method BuildPage(user: User, space: Id, dto: CreateDto) returns (page: Page)
      ensures page == NewPage(cfg, Tables(), user, space, dto)
    {
      var lastSibling := LastPosition(pages, space, dto.parent);
      var position := if lastSibling.Some? then lastSibling.value + 1 else 0;
      var pageSlug := GenerateUniqueSlug(space, dto.title);
      var content := if dto.content.Some? then dto.content.value else EMPTY_DOCUMENT;
      page := Page(
        space, user, dto.parent, dto.document, dto.title, pageSlug, content, position, DRAFT, None);
    }

    method CreatePage(user: User, slug: string, dto: CreateDto, now: int) returns (r: Reply)
      modifies this
      ensures (Tables(), r) == Drafts.CreatePage(cfg, old(Tables()), user, slug, dto, now)
    {
      if (user, slug) !in spaces {
        return Err(SpaceNotFound);
      }
      var space := spaces[(user, slug)];
      if dto.parent.Some? && !InSpace(pages, user, space, dto.parent.value) {
        return Err(InvalidParent);
      }
      if dto.document.Some? {
        if !(dto.document.value < |documents| && documents[dto.document.value] == user) {
          return Err(InvalidDocument);
        }
      }
      var page := BuildPage(user, space, dto);
      var id := |pages|;
      pages := pages + [page];
      if dto.content.Some? {
        versions := versions + [Version(id, user, dto.content.value, now, AtCreate, None)];
      }
      return Ok(id);
    }

    /** The row after the update, filled in field by field. */
    method BuildUpdate(page: Page, dto: UpdateDto) returns (updated: Page)
      ensures updated == UpdatedPage(cfg, Tables(), page, dto)
    {
      updated := page;
      if dto.title.Some? {
        var pageSlug := GenerateUniqueSlug(page.space, dto.title.value);
        updated := updated.(title := dto.title.value, slug := pageSlug);
      }
      if dto.position.Some? {
        updated := updated.(position := dto.position.value);
      }
      match dto.parent {
        case Set(parent) => updated := updated.(parent := Some(parent));
        case Null => updated := updated.(parent := None);
        case Unset =>
      }
      if dto.content.Some? {
        updated := updated.(content := dto.content.value);
        if page.status.DRAFT? {
          updated := updated.(status := IN_PROGRESS);
        }
      }
      if dto.status.Some? {
        updated := updated.(status := dto.status.value);
      }
    }

    method UpdatePage(user: User, slug: string, id: Id, dto: UpdateDto, now: int) returns (r: Reply)
      modifies this
      ensures (Tables(), r) == Drafts.UpdatePage(cfg, old(Tables()), user, slug, id, dto, now)
    {
      var found := FindBySpaceAndId(user, slug, id);
      if found.Err? {
        return Err(found.error);
      }
      var page := found.value;
      if page.status.FINALIZED? {
        return Err(PageLocked);
      }
      if dto.parent.Set? && page.parent != Some(dto.parent.value) {
        if dto.parent.value == id {
          return Err(OwnParent);
        }
        if !InSpace(pages, user, page.space, dto.parent.value) {
          return Err(InvalidParent);
        }
      }
      var updated := BuildUpdate(page, dto);
      pages := pages[id := updated];
      if dto.content.Some? {
        var recent := NewestVersion(versions, id);
        if recent.None? || now - recent.value > SNAPSHOT_INTERVAL_MS {
          versions := versions + [Version(id, user, dto.content.value, now, AutoSave, None)];
        }
      }
      return Ok(id);
    }

    method SoftDelete(user: User, slug: string, id: Id, now: int) returns (r: Reply)
      modifies this
      ensures (Tables(), r) == Drafts.SoftDelete(old(Tables()), user, slug, id, now)
    {
      var found := FindBySpaceAndId(user, slug, id);
      if found.Err? {
        return Err(found.error);
      }
      pages := pages[id := found.value.(deletedAt := Some(now))];
      return Ok(id);
    }

    method FinalizePage(user: User, id: Id, docType: Option<Id>, uploads: bool, now: int) returns (r: Reply)
      modifies this
      ensures (Tables(), r) == Drafts.FinalizePage(cfg, old(Tables()), user, id, docType, uploads, now)
    {
      if !OwnedLive(pages, user, id) {
        return Err(PageNotFound);
      }
      var page := pages[id];
      if user !in profiles {
        profiles := profiles + {user};
      }
      assert profiles == old(profiles) + {user};
      var existing := CountDocuments(user);
      if existing >= cfg.maxDocuments {
        return Err(DocumentLimit);
      }
      if docType.Some? {
        if docType.value !in cfg.documentTypes {
          return Err(InvalidDocumentType);
        }
      } else if cfg.defaultType.None? {
        return Err(NoDocumentType);
      }
      if !uploads {
        return Err(UploadFailed);
      }
      var document := |documents|;
      documents := documents + [user];
      pages := pages[id := pages[id].(status := FINALIZED, document := Some(document))];
      versions := versions + [Version(id, user, page.content, now, AtFinalize, Some(document))];
      return Ok(document);
    }

    method CountDocuments(user: User) returns (n: nat)
      ensures n == DocumentCount(documents, user)
    {
      n := 0;
      for i := 0 to |documents|
        invariant n == DocumentCount(documents[..i], user)
      {
        assert documents[..i + 1][..i] == documents[..i];
        if documents[i] == user {
          n := n + 1;
        }
      }
      assert documents[..|documents|] == documents;
    }

    method Unlock(user: User, id: Id) returns (r: Reply)
      modifies this
      ensures (Tables(), r) == Drafts.Unlock(old(Tables()), user, id)
    {
      if !OwnedLive(pages, user, id) {
        return Err(PageNotFound);
      }
      pages := pages[id := pages[id].(status := IN_PROGRESS)];
      return Ok(id);
    }

    method Revert(user: User, id: Id, version: Id, now: int) returns (r: Reply)
      modifies this
      ensures (Tables(), r) == Drafts.Revert(old(Tables()), user, id, version, now)
    {
      if !OwnedLive(pages, user, id) {
        return Err(PageNotFound);
      }
      if pages[id].status.FINALIZED? {
        return Err(PageLocked);
      }
      if !(version < |versions| && versions[version].page == id && versions[version].user == user) {
        return Err(VersionNotFound);
      }
      var content := versions[version].content;
      pages := pages[id := pages[id].(content := content, status := IN_PROGRESS)];
      versions := versions + [Version(id, user, content, now, AtRevert, None)];
      return Ok(id);
    }

    method Propose(user: User, page: Id, original: string, suggested: string) returns (r: Reply)
      modifies this
      ensures (Tables(), r) == Drafts.Propose(old(Tables()), user, page, original, suggested)
    {
      if !OwnedLive(pages, user, page) {
        return Err(PageNotFound);
      }
      var id := |proposals|;
      proposals := proposals + [Proposal(page, user, original, suggested, PENDING, None)];
      return Ok(id);
    }

    /** A snapshot of the page as it is. */
    method CreateSnapshot(user: User, page: Id, now: int) returns (ok: bool)
      modifies this`versions
      ensures ok == OwnedLive(pages, user, page)
      ensures versions ==
        if ok then old(versions) + [Version(page, user, pages[page].content, now, BeforeAccept, None)]
        else old(versions)
    {
      if !OwnedLive(pages, user, page) {
        return false;
      }
      versions := versions + [Version(page, user, pages[page].content, now, BeforeAccept, None)];
      return true;
    }

    /** The body runs in a transaction: when it throws, the tables it has changed so far are put back. */
    method Accept(user: User, id: Id, now: int) returns (r: Reply)
      modifies this
      ensures (Tables(), r) == Drafts.Accept(old(Tables()), user, id, now)
    {
      var pages0, versions0, proposals0 := pages, versions, proposals;
      r := AcceptBody(user, id, now);
      if r.Err? {
        pages, versions, proposals := pages0, versions0, proposals0;
      }
    }

    method AcceptBody(user: User, id: Id, now: int) returns (r: Reply)
      modifies this
      ensures spaces == old(spaces) && documents == old(documents) && profiles == old(profiles)
      ensures r == Drafts.Accept(old(Tables()), user, id, now).1
      ensures r.Ok? ==> Tables() == Drafts.Accept(old(Tables()), user, id, now).0
    {
      if !(id < |proposals| && proposals[id].user == user && proposals[id].status.PENDING?) {
        return Err(NotPending);
      }
      proposals := proposals[id := proposals[id].(status := ACCEPTED, appliedAt := Some(now))];
      var proposal := proposals[id];
      var ok := CreateSnapshot(user, proposal.page, now);
      if !ok {
        return Err(PageNotFound);
      }
      var page := pages[proposal.page];
      var res := Rewrite(page.content, proposal.original, proposal.suggested);
      if res.count == 0 {
        return Err(TextNotFound);
      }
      pages := pages[proposal.page := page.(content := res.updated, status := IN_PROGRESS)];
      return Ok(id);
    }

    method Reject(user: User, id: Id) returns (r: Reply)
      modifies this
      ensures (Tables(), r) == Drafts.Reject(old(Tables()), user, id)
    {
      if !(id < |proposals| && proposals[id].user == user && proposals[id].status.PENDING?) {
        return Err(NotPending);
      }
      proposals := proposals[id := proposals[id].(status := REJECTED)];
      return Ok(id);
    }
  }
}
