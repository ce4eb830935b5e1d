/** What every run of the draft services keeps. */
module DraftRuns {
  import opened Basics
  import opened ProseMirror
  import opened Drafts
  import Slugs
  import Text

  // ----- Slugs

  /** No two live pages of one space share a slug. */
  ghost predicate UniqueSlugs(pages: seq<Page>) {
    forall i, j | 0 <= i < j < |pages| && Live(pages, i) && Live(pages, j) && pages[i].space == pages[j].space ::
      pages[i].slug != pages[j].slug
  }

  /** Replacing a page keeps unique slugs if it leaves its place alone, is deleted, or takes a free slug. */
  lemma ReplacingPageKeepsUniqueSlugs(pages: seq<Page>, id: Id, page: Page)
    requires UniqueSlugs(pages) && Live(pages, id) && page.space == pages[id].space
    requires page.deletedAt.Some? || page.slug == pages[id].slug || page.slug !in LiveSlugs(pages, page.space)
    ensures UniqueSlugs(pages[id := page])
  {
    var pages' := pages[id := page];
    forall i, j | 0 <= i < j < |pages'| && Live(pages', i) && Live(pages', j) && pages'[i].space == pages'[j].space
      ensures pages'[i].slug != pages'[j].slug
    {
      assert i != id ==> pages[i] == pages'[i] && Live(pages, i);
      assert j != id ==> pages[j] == pages'[j] && Live(pages, j);
    }
  }

  lemma StepKeepsUniqueSlugs(cfg: Config, db: Db, op: Op, now: int)
    requires UniqueSlugs(db.pages)
    ensures UniqueSlugs(Step(cfg, db, op, now).0.pages)
  {
    var db' := Step(cfg, db, op, now).0;
    match op {
      case CreatePageOp(u, s, dto) =>
        if db'.pages != db.pages {
          var page := db'.pages[|db.pages|];
          assert page.slug !in LiveSlugs(db.pages, page.space);
          forall i | 0 <= i < |db.pages| && Live(db'.pages, i) && db'.pages[i].space == page.space
            ensures db'.pages[i].slug != page.slug
          {
            assert Live(db.pages, i);
          }
          assert forall i | 0 <= i < |db.pages| :: Live(db'.pages, i) == Live(db.pages, i);
        }
      case UpdatePageOp(_, _, id, dto) =>
        if db'.pages != db.pages {
          ReplacingPageKeepsUniqueSlugs(db.pages, id, db'.pages[id]);
        }
      case SoftDeleteOp(_, _, id) =>
        if db'.pages != db.pages {
          ReplacingPageKeepsUniqueSlugs(db.pages, id, db'.pages[id]);
        }
      case FinalizeOp(_, id, _, _) =>
        if db'.pages != db.pages {
          ReplacingPageKeepsUniqueSlugs(db.pages, id, db'.pages[id]);
        }
      case UnlockOp(_, id) =>
        if db'.pages != db.pages {
          ReplacingPageKeepsUniqueSlugs(db.pages, id, db'.pages[id]);
        }
      case RevertOp(_, id, _) =>
        if db'.pages != db.pages {
          ReplacingPageKeepsUniqueSlugs(db.pages, id, db'.pages[id]);
        }
      case AcceptOp(_, p) =>
        if db'.pages != db.pages {
          var id := db.proposals[p].page;
          ReplacingPageKeepsUniqueSlugs(db.pages, id, db'.pages[id]);
        }
      case _ =>
    }
  }

  /** In every reachable state the live pages of one space have distinct slugs. */
  lemma {:induction false} SlugsStayUnique(run: Run, n: nat)
    requires run.Valid() && n < |run.states|
    ensures UniqueSlugs(run.states[n].pages)
  {
    if n > 0 {
      SlugsStayUnique(run, n - 1);
      var e := run.events[n - 1];
      StepKeepsUniqueSlugs(run.cfg, run.states[n - 1], e.op, e.now);
    }
  }

  /** An update keeps the slug exactly when it gives no title: the search counts the page's own slug as taken. */
  lemma RetitleMovesSlug(cfg: Config, db: Db, user: User, slug: string, id: Id, dto: UpdateDto, now: int)
    requires UpdatePage(cfg, db, user, slug, id, dto, now).1.Ok?
    ensures UpdatePage(cfg, db, user, slug, id, dto, now).0.pages[id].slug == db.pages[id].slug <==> dto.title.None?
  {
    var page := db.pages[id];
    assert page.slug in LiveSlugs(db.pages, page.space);
    assert dto.title.Some? ==> UpdatedPage(cfg, db, page, dto).slug !in LiveSlugs(db.pages, page.space);
  }

  ghost function LivePages(pages: seq<Page>, space: Id): set<Id> {
    set i | 0 <= i < |pages| && Live(pages, i) && pages[i].space == space
  }

  lemma {:induction false} ImageIsNoLarger(pages: seq<Page>, ids: set<Id>)
    requires forall i | i in ids :: i < |pages|
    ensures |set i | i in ids :: pages[i].slug| <= |ids|
  {
    if ids != {} {
      var x :| x in ids;
      var rest := ids - {x};
      ImageIsNoLarger(pages, rest);
      var image := set i | i in rest :: pages[i].slug;
      assert (set i | i in ids :: pages[i].slug) == image + {pages[x].slug};
    }
  }

  /** With n live pages in the space, the slug search finds at most n candidates taken. */
  lemma SlugLookups(pages: seq<Page>, space: Id, base: string)
    ensures Slugs.FreeIndex(base, LiveSlugs(pages, space)) <= |LivePages(pages, space)|
  {
    var ids := LivePages(pages, space);
    ImageIsNoLarger(pages, ids);
    assert LiveSlugs(pages, space) == set i | i in ids :: pages[i].slug;
  }

  /** A new space never takes a slug its owner already uses, so no space row is overwritten. */
  lemma NewSpaceIsNew(cfg: Config, db: Db, user: User, name: string)
    ensures var db' := CreateSpace(cfg, db, user, name).0;
      && db.spaces.Keys < db'.spaces.Keys
      && forall k | k in db.spaces :: db'.spaces[k] == db.spaces[k]
  {
    var slug := Slugs.FreeSlug(BaseSlug(cfg, name, "workspace"), OwnerSlugs(db.spaces, user));
    var k := (user, slug);
    assert k in db.spaces ==> k.1 in OwnerSlugs(db.spaces, user);
    assert k in CreateSpace(cfg, db, user, name).0.spaces;
  }

  // ----- What one step does to the rows

  /** Every row of the one state is still there in the other; its pages have not changed hands. */
  ghost predicate RowsKept(a: Db, b: Db) {
    && a.versions <= b.versions && a.profiles <= b.profiles
    && |a.pages| <= |b.pages| && |a.proposals| <= |b.proposals|
    && (forall i | 0 <= i < |a.pages| :: b.pages[i].owner == a.pages[i].owner && b.pages[i].space == a.pages[i].space)
  }

  /** Rows are never removed, a page never changes hands, and a failing call changes at most the profiles. */
  lemma StepKeepsRows(cfg: Config, db: Db, op: Op, now: int)
    ensures var (db', reply) := Step(cfg, db, op, now);
      RowsKept(db, db') && (reply.Err? ==> db' == db.(profiles := db'.profiles))
  {
  }

  /** A failing call changes something exactly when it is a finalize of a live page whose owner had no profile. */
  lemma FailedCallExact(cfg: Config, db: Db, op: Op, now: int)
    requires Step(cfg, db, op, now).1.Err?
    ensures Step(cfg, db, op, now).0 != db
       <==> op.FinalizeOp? && OwnedLive(db.pages, op.user, op.page) && op.user !in db.profiles
  {
    var profiles := Step(cfg, db, op, now).0.profiles;
    StepKeepsRows(cfg, db, op, now);
    assert op.FinalizeOp? && op.user in db.profiles ==> db.profiles + {op.user} == db.profiles;
    assert op.FinalizeOp? && OwnedLive(db.pages, op.user, op.page) ==> op.user in profiles;
  }

  /** From the empty database on, a finalize with an unknown document type fails and yet creates the profile. */
  lemma FailedFinalizeWrites(cfg: Config, t: Id)
    requires cfg.maxDocuments > 0 && t !in cfg.documentTypes
    ensures var slug := Slugs.FreeSlug(BaseSlug(cfg, "home", "workspace"), {});
      var db1 := CreateSpace(cfg, EMPTY_DB, 0, "home").0;
      var db2 := CreatePage(cfg, db1, 0, slug, CreateDto("page", None, None, None), 1).0;
      var (db3, reply) := FinalizePage(cfg, db2, 0, 0, Some(t), true, 2);
      reply == Err(InvalidDocumentType) && 0 !in db2.profiles && 0 in db3.profiles
  {
    assert OwnerSlugs(EMPTY_DB.spaces, 0) == {};
  }

  lemma RowsKeptTwice(a: Db, b: Db, c: Db)
    requires RowsKept(a, b) && RowsKept(b, c)
    ensures RowsKept(a, c)
  {
  }

  lemma {:induction false} RunKeepsRows(run: Run, m: nat, n: nat)
    requires run.Valid() && m <= n < |run.states|
    ensures RowsKept(run.states[m], run.states[n])
    decreases n
  {
    if m < n {
      RunKeepsRows(run, m, n - 1);
      var e := run.events[n - 1];
      StepKeepsRows(run.cfg, run.states[n - 1], e.op, e.now);
      RowsKeptTwice(run.states[m], run.states[n - 1], run.states[n]);
    }
  }

  /** No call touches the pages, proposals or spaces of another user. */
  lemma CallersTouchTheirOwn(cfg: Config, db: Db, op: Op, now: int)
    ensures var db' := Step(cfg, db, op, now).0;
      && (forall i | 0 <= i < |db.pages| && db.pages[i].owner != op.user :: db'.pages[i] == db.pages[i])
      && (forall i | |db.pages| <= i < |db'.pages| :: db'.pages[i].owner == op.user)
      && (forall i | 0 <= i < |db.proposals| && db.proposals[i].user != op.user :: db'.proposals[i] == db.proposals[i])
      && (forall k: (User, string) | k.0 != op.user :: k in db'.spaces <==> k in db.spaces)
      && (forall k: (User, string) | k.0 != op.user && k in db.spaces :: db'.spaces[k] == db.spaces[k])
  {
  }

  /** Versions are added in the caller's name, to the caller's own pages. */
  lemma VersionsGoToOwnPages(cfg: Config, db: Db, op: Op, now: int)
    ensures var db' := Step(cfg, db, op, now).0;
      forall i | |db.versions| <= i < |db'.versions| ::
        && db'.versions[i].user == op.user && db'.versions[i].page < |db'.pages|
        && db'.pages[db'.versions[i].page].owner == op.user
  {
  }

  /** In every reachable state a version was stored by the owner of its page. */
  lemma {:induction false} VersionsAreOwned(run: Run, n: nat, k: nat)
    requires run.Valid() && n < |run.states| && k < |run.states[n].versions|
    ensures var v := run.states[n].versions[k];
      v.page < |run.states[n].pages| && run.states[n].pages[v.page].owner == v.user
  {
    assert n > 0;
    var e, before := run.events[n - 1], run.states[n - 1];
    StepKeepsRows(run.cfg, before, e.op, e.now);
    VersionsGoToOwnPages(run.cfg, before, e.op, e.now);
    if k < |before.versions| {
      VersionsAreOwned(run, n - 1, k);
      assert run.states[n].versions[k] == before.versions[k];
    }
  }

  // ----- Versions

  /** The content of a page in one state. */
  ghost predicate PageHolds(db: Db, page: Id, content: Content) {
    page < |db.pages| && db.pages[page].content == content
  }

  /** A step adds at most one version: stamped now, holding its page's content just before or just after the step. */
  lemma StepAddsVersion(cfg: Config, db: Db, op: Op, now: int)
    ensures var db' := Step(cfg, db, op, now).0;
      db'.versions == db.versions ||
      (|db'.versions| == |db.versions| + 1 && db.versions <= db'.versions &&
       var v := db'.versions[|db.versions|];
       && v.createdAt == now
       && (PageHolds(db', v.page, v.content) || PageHolds(db, v.page, v.content))
       && (v.origin.AutoSave? ==> SnapshotDue(db.versions, v.page, now)))
  {
  }

  /**
   Every stored version holds a content its page really had, in a state no later than the
   one that stored it, and is stamped with the moment of the call that stored it.
   */
  lemma {:induction false} VersionsAreReal(run: Run, n: nat, k: nat)
    requires run.Valid() && n < |run.states| && k < |run.states[n].versions|
    ensures exists i | 0 <= i < n ::
      var v := run.states[n].versions[k];
      && k == |run.states[i].versions| < |run.states[i + 1].versions|
      && v == run.states[i + 1].versions[k] && v.createdAt == run.events[i].now
      && (PageHolds(run.states[i], v.page, v.content) || PageHolds(run.states[i + 1], v.page, v.content))
  {
    assert n > 0;
    var e := run.events[n - 1];
    var before := run.states[n - 1];
    StepAddsVersion(run.cfg, before, e.op, e.now);
    if k < |before.versions| {
      VersionsAreReal(run, n - 1, k);
      var i :| 0 <= i < n - 1 &&
        (var v := before.versions[k];
        && k == |run.states[i].versions| < |run.states[i + 1].versions|
        && v == run.states[i + 1].versions[k] && v.createdAt == run.events[i].now
        && (PageHolds(run.states[i], v.page, v.content) || PageHolds(run.states[i + 1], v.page, v.content)));
      assert run.states[n].versions[k] == before.versions[k];
    }
  }

  /** Each auto-save version comes more than a minute after every earlier version of its page. */
  ghost predicate AutoSavesSpaced(versions: seq<Version>) {
    forall i, j | 0 <= i < j < |versions| && versions[i].page == versions[j].page && versions[j].origin.AutoSave? ::
      versions[i].createdAt + SNAPSHOT_INTERVAL_MS < versions[j].createdAt
  }

  lemma {:induction false} AutoSavesStaySpaced(run: Run, n: nat)
    requires run.Valid() && n < |run.states|
    ensures AutoSavesSpaced(run.states[n].versions)
  {
    if n > 0 {
      AutoSavesStaySpaced(run, n - 1);
      var e := run.events[n - 1];
      StepAddsVersion(run.cfg, run.states[n - 1], e.op, e.now);
    }
  }

  /** The auto-save versions of a page stamped in the closed interval `from..to`. */
  function AutoSaveCount(versions: seq<Version>, page: Id, from: int, to: int): nat {
    if versions == [] then 0
    else
      var v := versions[|versions| - 1];
      AutoSaveCount(versions[..|versions| - 1], page, from, to)
      + if v.page == page && v.origin.AutoSave? && from <= v.createdAt <= to then 1 else 0
  }

  lemma {:induction false} AutoSaveCountShrinks(versions: seq<Version>, page: Id, from: int, to: int, to': int)
    requires forall i | 0 <= i < |versions| && versions[i].page == page && versions[i].origin.AutoSave? ::
      versions[i].createdAt <= to' || to < versions[i].createdAt
    requires to' <= to
    ensures AutoSaveCount(versions, page, from, to) == AutoSaveCount(versions, page, from, to')
  {
    if versions != [] {
      var rest := versions[..|versions| - 1];
      assert forall i | 0 <= i < |rest| :: rest[i] == versions[i];
      AutoSaveCountShrinks(rest, page, from, to, to');
    }
  }

  /** Spaced auto-saves: an interval of L milliseconds holds at most L / 60001 + 1 of them. */
  lemma {:induction false} SpacedAutoSaves(versions: seq<Version>, page: Id, from: int, to: int)
    requires AutoSavesSpaced(versions)
    ensures from <= to ==> AutoSaveCount(versions, page, from, to) <= (to - from) / (SNAPSHOT_INTERVAL_MS + 1) + 1
    ensures from > to ==> AutoSaveCount(versions, page, from, to) == 0
  {
    if versions != [] {
      var n := |versions| - 1;
      var rest, v := versions[..n], versions[n];
      assert forall i | 0 <= i < n :: rest[i] == versions[i];
      if v.page == page && v.origin.AutoSave? && from <= v.createdAt <= to {
        var cut := v.createdAt - SNAPSHOT_INTERVAL_MS - 1;
        AutoSaveCountShrinks(rest, page, from, to, cut);
        SpacedAutoSaves(rest, page, from, cut);
      } else {
        SpacedAutoSaves(rest, page, from, to);
      }
    }
  }

  /** In every reachable state, any interval of L ms holds at most floor(L / 60000) + 1 auto-save versions of a page. */
  lemma AutoSaveRate(run: Run, n: nat, page: Id, from: int, length: nat)
    requires run.Valid() && n < |run.states|
    ensures AutoSaveCount(run.states[n].versions, page, from, from + length) <= length / SNAPSHOT_INTERVAL_MS + 1
  {
    AutoSavesStaySpaced(run, n);
    SpacedAutoSaves(run.states[n].versions, page, from, from + length);
  }

  // ----- The lock of finalized pages

  ghost predicate SameLockedFields(p: Page, q: Page) {
    && p.content == q.content && p.title == q.title && p.slug == q.slug
    && p.position == q.position && p.parent == q.parent
  }

  /** A page FINALIZED before and after a step keeps its content, title, slug, position and parent. */
  lemma StepKeepsLocked(cfg: Config, db: Db, op: Op, now: int, id: Id)
    requires id < |db.pages| && db.pages[id].status.FINALIZED?
    ensures var db' := Step(cfg, db, op, now).0;
      db'.pages[id].status.FINALIZED? ==> SameLockedFields(db.pages[id], db'.pages[id])
  {
  }

  /** The call accepts a proposal about this page: it is pending, the caller's own, and some text matches. */
  predicate Accepts(db: Db, op: Op, id: Id) {
    && op.AcceptOp? && IsPending(db, op.user, op.proposal) && db.proposals[op.proposal].page == id
    && OwnedLive(db.pages, op.user, id)
    && Rewrite(db.pages[id].content, db.proposals[op.proposal].original, db.proposals[op.proposal].suggested).count > 0
  }

  /** The call unlocks this page. */
  predicate Unlocks(db: Db, op: Op, id: Id) {
    op.UnlockOp? && op.page == id && OwnedLive(db.pages, op.user, id)
  }

  /** A FINALIZED page leaves the state exactly by an unlock or by an accepted proposal. */
  lemma LockEndsExact(cfg: Config, db: Db, op: Op, now: int, id: Id)
    requires id < |db.pages| && db.pages[id].status.FINALIZED?
    ensures !Step(cfg, db, op, now).0.pages[id].status.FINALIZED? <==> Unlocks(db, op, id) || Accepts(db, op, id)
  {
  }

  /**
   One of the locked fields of a FINALIZED page changes exactly when an accepted proposal
   rewrites it into a different tree; then it is the content alone, and that tree.
   */
  lemma OnlyAcceptBreaksLock(cfg: Config, db: Db, op: Op, now: int, id: Id)
    requires id < |db.pages| && db.pages[id].status.FINALIZED?
    ensures var (p, q) := (db.pages[id], Step(cfg, db, op, now).0.pages[id]);
      && SameLockedFields(p.(content := q.content), q)
      && (q.content != p.content <==>
            Accepts(db, op, id) &&
            var proposal := db.proposals[op.proposal];
            Rewrite(p.content, proposal.original, proposal.suggested).updated != p.content)
      && (Accepts(db, op, id) ==>
            var proposal := db.proposals[op.proposal];
            q.content == Rewrite(p.content, proposal.original, proposal.suggested).updated)
  {
  }

  const HELLO: Content := JObj(map["type" := JStr("text"), "text" := JStr("ab")])

  /** From the empty database on, a user's own FINALIZED page is rewritten by an accepted proposal without an unlock. */
  lemma FinalizedPageRewritten(cfg: Config)
    requires cfg.maxDocuments > 0 && cfg.defaultType.Some?
    ensures var slug := Slugs.FreeSlug(BaseSlug(cfg, "home", "workspace"), {});
      var db1 := CreateSpace(cfg, EMPTY_DB, 0, "home").0;
      var db2 := CreatePage(cfg, db1, 0, slug, CreateDto("page", None, None, Some(HELLO)), 1).0;
      var db3 := Propose(db2, 0, 0, "b", "c").0;
      var db4 := FinalizePage(cfg, db3, 0, 0, None, true, 2).0;
      var (db5, reply) := Accept(db4, 0, 0, 3);
      && db4.pages[0].status.FINALIZED? && db4.pages[0].content == HELLO
      && reply.Ok? && db5.pages[0].status.IN_PROGRESS? && Texts(db5.pages[0].content) == ["ac"]
  {
    assert OwnerSlugs(EMPTY_DB.spaces, 0) == {};
    RewriteMeaning(HELLO, "b", "c");
    RewrittenHello();
  }

  lemma RewrittenHello()
    ensures Texts(HELLO) == ["ab"] && ReplaceEach(["ab"], "b", "c") == ["ac"] && Matches(["ab"], "b") == 1
  {
    assert Text.OccursAt("ab", "b", 1);
    OccurrenceStart("ab", "b", 0);
    Text.FindIsFirst("ab", "b", 1);
    assert Text.ReplaceFirst("ab", "b", "c") == "ac";
  }

  ghost predicate StaysFinalized(run: Run, id: Id, m: nat, n: nat)
    requires run.Valid() && m <= n < |run.states|
  {
    forall i | m <= i <= n :: id < |run.states[i].pages| && run.states[i].pages[id].status.FINALIZED?
  }

  /** Along any stretch in which a page stays FINALIZED those fields are constant. */
  lemma {:induction false} LockHolds(run: Run, id: Id, m: nat, n: nat)
    requires run.Valid() && m <= n < |run.states| && StaysFinalized(run, id, m, n)
    ensures SameLockedFields(run.states[m].pages[id], run.states[n].pages[id])
    decreases n
  {
    if m < n {
      LockHolds(run, id, m, n - 1);
      var e := run.events[n - 1];
      StepKeepsLocked(run.cfg, run.states[n - 1], e.op, e.now, id);
    }
  }

  /** From a `finalize` on, while the page stays FINALIZED, its content is the snapshot that call stored. */
  lemma FinalizedSnapshotMatches(run: Run, m: nat, n: nat)
    requires run.Valid() && m < n < |run.states|
    requires run.events[m].op.FinalizeOp? && run.ReplyOf(m).Ok?
    requires StaysFinalized(run, run.events[m].op.page, m + 1, n)
    ensures var (id, v) := (run.events[m].op.page, |run.states[m].versions|);
      && v < |run.states[n].versions|
      && run.states[n].versions[v].page == id && run.states[n].versions[v].origin.AtFinalize?
      && run.states[n].versions[v].document == Some(run.ReplyOf(m).value)
      && run.states[n].pages[id].content == run.states[n].versions[v].content
  {
    var (id, v) := (run.events[m].op.page, |run.states[m].versions|);
    LockHolds(run, id, m + 1, n);
    RunKeepsRows(run, m + 1, n);
    assert run.states[n].versions[v] == run.states[m + 1].versions[v];
  }

  // ----- Proposals

  /** A proposal that is not PENDING never changes; a PENDING one can only be accepted or rejected. */
  lemma StepKeepsDecided(cfg: Config, db: Db, op: Op, now: int, id: Id)
    requires id < |db.proposals|
    ensures var q := Step(cfg, db, op, now).0.proposals[id];
      var p := db.proposals[id];
      && (!p.status.PENDING? ==> q == p)
      && (q != p ==> q.(status := PENDING, appliedAt := None) == p.(appliedAt := None) &&
                     (q.status.ACCEPTED? ==> op == AcceptOp(p.user, id) && q.appliedAt == Some(now)) &&
                     (q.status.REJECTED? ==> op == RejectOp(p.user, id) && q.appliedAt == p.appliedAt) &&
                     !q.status.PENDING?)
  {
  }

  /** Once decided, a proposal is the same row in every later state. */
  lemma {:induction false} DecidedForever(run: Run, id: Id, m: nat, n: nat)
    requires run.Valid() && m <= n < |run.states|
    requires id < |run.states[m].proposals| && !run.states[m].proposals[id].status.PENDING?
    ensures id < |run.states[n].proposals| && run.states[n].proposals[id] == run.states[m].proposals[id]
    decreases n
  {
    if m < n {
      DecidedForever(run, id, m, n - 1);
      var e := run.events[n - 1];
      StepKeepsRows(run.cfg, run.states[n - 1], e.op, e.now);
      StepKeepsDecided(run.cfg, run.states[n - 1], e.op, e.now, id);
    }
  }

  /** At most one accept or reject of a proposal succeeds in a run. */
  lemma DecidedOnce(run: Run, m: nat, n: nat, id: Id)
    requires run.Valid() && m < n < |run.events|
    requires run.events[m].op.AcceptOp? || run.events[m].op.RejectOp?
    requires run.events[n].op.AcceptOp? || run.events[n].op.RejectOp?
    requires run.events[m].op.proposal == id == run.events[n].op.proposal
    requires run.ReplyOf(m).Ok?
    ensures run.ReplyOf(n) == Err(NotPending)
  {
    DecidedForever(run, id, m + 1, n);
  }

  /**
   A successful accept rewrites the page, unlocks it, decides the proposal, and adds exactly
   one version, which holds the prior content.  A failing one changes nothing at all.
   */
  lemma AcceptMeaning(db: Db, user: User, id: Id, now: int)
    ensures var (db', reply) := Accept(db, user, id, now);
      && (reply.Err? ==> db' == db)
      && (reply.Ok? ==>
            var p := db.proposals[id];
            && IsPending(db, user, id) && OwnedLive(db.pages, user, p.page)
            && Matches(Texts(db.pages[p.page].content), p.original) > 0
            && Skeleton(db'.pages[p.page].content) == Skeleton(db.pages[p.page].content)
            && Texts(db'.pages[p.page].content)
               == ReplaceEach(Texts(db.pages[p.page].content), p.original, p.suggested)
            && db'.pages[p.page].status.IN_PROGRESS?
            && db'.versions == db.versions + [db'.versions[|db.versions|]]
            && db'.versions[|db.versions|].page == p.page
            && db'.versions[|db.versions|].content == db.pages[p.page].content)
      && (reply.Ok? <==>
            && IsPending(db, user, id) && OwnedLive(db.pages, user, db.proposals[id].page)
            && Matches(Texts(db.pages[db.proposals[id].page].content), db.proposals[id].original) > 0)
  {
    if IsPending(db, user, id) && OwnedLive(db.pages, user, db.proposals[id].page) {
      var p := db.proposals[id];
      RewriteMeaning(db.pages[p.page].content, p.original, p.suggested);
    }
  }

  /**
   Reverting to the version an accept stored, at any later time when the page is live and not
   FINALIZED, succeeds and restores the content the page had before the accept.
   */
  lemma RevertRestores(run: Run, m: nat, n: nat, now: int)
    requires run.Valid() && m < n < |run.states|
    requires run.events[m].op.AcceptOp? && run.ReplyOf(m).Ok?
    requires var id := run.states[m].proposals[run.events[m].op.proposal].page;
      Live(run.states[n].pages, id) && !run.states[n].pages[id].status.FINALIZED?
    ensures var id := run.states[m].proposals[run.events[m].op.proposal].page;
      var (db', reply) := Revert(run.states[n], run.events[m].op.user, id, |run.states[m].versions|, now);
      reply.Ok? && db'.pages[id].content == run.states[m].pages[id].content
  {
    RunKeepsRows(run, m + 1, n);
    var v := |run.states[m].versions|;
    assert run.states[n].versions[v] == run.states[m + 1].versions[v];
  }

  /**
   Accepting a proposal and then the swapped proposal restores the page exactly when each
   text of the page is reversible for the two texts.
   */
  lemma SwappedProposalUndoes(db: Db, user: User, id: Id, now: int, back: Id, later: int)
    requires Accept(db, user, id, now).1.Ok?
    requires var db1 := Accept(db, user, id, now).0;
      && IsPending(db1, user, back) && db1.proposals[back].page == db.proposals[id].page
      && db1.proposals[back].original == db.proposals[id].suggested
      && db1.proposals[back].suggested == db.proposals[id].original
    ensures var p := db.proposals[id];
      var db2 := Accept(Accept(db, user, id, now).0, user, back, later);
      && db2.1.Ok?
      && (db2.0.pages[p.page].content == db.pages[p.page].content
          <==> forall t | t in Texts(db.pages[p.page].content) :: Reversible(t, p.original, p.suggested))
  {
    var p := db.proposals[id];
    var content := db.pages[p.page].content;
    RoundTripExact(content, p.original, p.suggested);
    RewriteMeaning(content, p.original, p.suggested);
    var forth := Rewrite(content, p.original, p.suggested).updated;
    RewriteMeaning(forth, p.suggested, p.original);
    SuggestionIsFound(Texts(content), p.original, p.suggested);
  }

  lemma {:induction false} SuggestionIsFound(texts: seq<string>, original: string, suggested: string)
    ensures Matches(texts, original) <= Matches(ReplaceEach(texts, original, suggested), suggested)
  {
    if texts != [] {
      var changed := ReplaceEach(texts, original, suggested);
      assert changed[1..] == ReplaceEach(texts[1..], original, suggested);
      SuggestionIsFound(texts[1..], original, suggested);
      SuggestionInText(texts[0], original, suggested);
    }
  }

  // ----- Parents

  /** The parent of a page is another page of the same owner and space. */
  ghost predicate ParentsInSpace(pages: seq<Page>) {
    forall i | 0 <= i < |pages| && pages[i].parent.Some? ::
      var p := pages[i].parent.value;
      p < |pages| && p != i && pages[p].space == pages[i].space && pages[p].owner == pages[i].owner
  }

  lemma StepOfRunKeepsParents(run: Run, i: nat)
    requires run.Valid() && i < |run.events| && ParentsInSpace(run.states[i].pages)
    ensures ParentsInSpace(run.states[i + 1].pages)
  {
    var e := run.events[i];
    StepKeepsParents(run.cfg, run.states[i], e.op, e.now);
  }

  /** In every reachable state each parent is another page of the same owner and space. */
  lemma {:induction false} ParentsStayInSpace(run: Run, n: nat)
    requires run.Valid() && n < |run.states|
    ensures ParentsInSpace(run.states[n].pages)
  {
    if n > 0 {
      ParentsStayInSpace(run, n - 1);
      StepOfRunKeepsParents(run, n - 1);
    }
  }

  /** Only an update moves an existing page, and only its own. */
  lemma StepMovesOne(cfg: Config, db: Db, op: Op, now: int)
    ensures var db' := Step(cfg, db, op, now).0;
      |db.pages| <= |db'.pages| &&
      forall i | 0 <= i < |db.pages| && db'.pages[i].parent != db.pages[i].parent :: op.UpdatePageOp? && op.page == i
  {
  }

  /** A page appears only through a create, which checks its parent. */
  lemma StepAddsChild(cfg: Config, db: Db, op: Op, now: int)
    ensures var pages := Step(cfg, db, op, now).0.pages;
      forall i | |db.pages| <= i < |pages| && pages[i].parent.Some? ::
        pages[i].parent.value < |db.pages| &&
        var p := db.pages[pages[i].parent.value];
        p.space == pages[i].space && p.owner == pages[i].owner
  {
  }

  lemma UpdateKeepsParents(cfg: Config, db: Db, user: User, space: string, id: Id, dto: UpdateDto, now: int)
    requires ParentsInSpace(db.pages)
    ensures ParentsInSpace(UpdatePage(cfg, db, user, space, id, dto, now).0.pages)
  {
  }

  lemma StepKeepsParents(cfg: Config, db: Db, op: Op, now: int)
    requires ParentsInSpace(db.pages)
    ensures ParentsInSpace(Step(cfg, db, op, now).0.pages)
  {
    if op.UpdatePageOp? {
      UpdateKeepsParents(cfg, db, op.user, op.space, op.page, op.update, now);
    } else {
      var pages := Step(cfg, db, op, now).0.pages;
      StepKeepsRows(cfg, db, op, now);
      StepMovesOne(cfg, db, op, now);
      StepAddsChild(cfg, db, op, now);
      forall i | 0 <= i < |pages| && pages[i].parent.Some?
        ensures var p := pages[i].parent.value;
          p < |pages| && p != i && pages[p].space == pages[i].space && pages[p].owner == pages[i].owner
      {
        assert i < |db.pages| ==> db.pages[i].parent == pages[i].parent;
      }
    }
  }

  /** A new page is placed after all its live siblings. */
  lemma NewPageIsLast(cfg: Config, db: Db, user: User, slug: string, dto: CreateDto, now: int)
    requires CreatePage(cfg, db, user, slug, dto, now).1.Ok?
    ensures var page := CreatePage(cfg, db, user, slug, dto, now).0.pages[|db.pages|];
      forall i | 0 <= i < |db.pages| && Sibling(db.pages[i], page.space, dto.parent) ::
        db.pages[i].position < page.position
  {
  }
}
