# Verified models of the Afaq backend

The backend serves scholarship candidates: they keep a profile, write draft documents with an AI
assistant, export them to PDF and browse opportunities matched to their profile.  This project
models its stateful services in Dafny and proves what they promise over every input and every
run.

`dafny verify dfyconfig.toml` checks everything.

## What is modelled

| area | modules |
|---|---|
| draft pages, versions, AI proposals, finalizing | `Drafts`, `DraftCalls`, `DraftRuns`, `DraftService`, `Slugs` |
| text rewriting in ProseMirror documents | `ProseMirror`, `Text` |
| compilation of documents to PDF content | `PdfExport`, `InlineMarks` |
| accounts, sessions and mail tokens over Redis | `Sessions`, `SessionCalls`, `SessionRuns`, `AuthService`, `SignedTokens` |
| fixed-window rate limiting | `Throttler` |
| idempotent requests | `Idempotency` |
| match query, ordering, pages and cache | `MatchQuery`, `Order`, `MatchPages`, `MatchCache` |
| profile score, preferences, educations | `Profile`, `ProfileScore`, `Educations`, `ProfileCalls`, `ProfileRuns`, `ProfileService` |

Each service that updates rows or keys is a class (`DraftService.Service`, `AuthService.Service`,
`ProfileService.Service`, `Throttler.Storage`, `Idempotency.Middleware`,
`MatchCache.MatchService`) whose methods follow the statements of the code.  Each method is proved
to do to the tables, and to return or throw, exactly what a specification function says; the
modules ending in `Calls` say what these functions mean in terms of rows, columns and keys.  A `Run`
is a sequence of calls from the empty state with a clock that never goes back; the lemmas about
`Run` therefore hold in every reachable state.

## Assumptions

- A service call is one atomic step; so is the begin of a request in the idempotency middleware,
  although its cache read and write are two awaits.
- Time is a parameter in milliseconds.  A Redis key is gone once its expiry time is reached.
- A row's id is its position or a fresh number.  A signed token is its position in the list of
  issued tokens, so it is fresh and cannot be forged; a hash stands for what it was made from.
  `SignedTokens` drops the freshness of refresh tokens and says exactly what is left.
- `slugify`, the system settings, the reference tables and the token lifetimes are parameters.
- The page content is a JSON object, never null.
- The scores and GPAs that the code computes in floating point are exact reals.  The two GPA
  columns round to two decimals, half up, and refuse 1000 and more
  (`prisma/schema.prisma:383-389`).
- A database comparison with null is neither true nor false, and only rows for which the clause
  is true are selected.

## What the proofs found

- The swapped rewrite does not always undo a rewrite; `ProseMirror.RoundTripExact` gives the exact
  condition, and `DraftRuns.SwappedProposalUndoes` carries it over to accepted proposals.
- Accepting a proposal has no check for FINALIZED: it is the one call that changes the content of
  a locked page (`DraftRuns.OnlyAcceptBreaksLock`, `DraftRuns.FinalizedPageRewritten`).
- A finalize that fails may already have created a profile row (`DraftRuns.FailedCallExact`,
  `DraftRuns.FailedFinalizeWrites`).
- Repeating the stored title in an update moves the slug, since the search counts the page's own
  slug as taken (`DraftRuns.RetitleMovesSlug`).
- The order of marks matters exactly when strike and link occur together
  (`InlineMarks.OrderIrrelevantExact`).
- The export can be an empty list of blocks, for example for an empty table
  (`PdfExport.ExportNonEmptyExact`, `PdfExport.EmptyExportExists`).
- A list loses the children of an unknown kind with no content array, and nothing else
  (`PdfExport.CompileKeepsLists`, `PdfExport.DroppedItemExists`).
- A key admits at most 2 * limit - 1 hits in any interval of one ttl, and that many are possible
  (`Throttler.SlidingBound`, `Throttler.SlidingBoundReached`).
- A response without a JSON form lets the handler run again under the same key
  (`Idempotency.RerunExact`, `Idempotency.NoBodyRunsTwice`).
- A record belongs to its begin exactly while no other request persists last
  (`Idempotency.OwnerExact`); a response persisted more than 24 h after its begin can do that to a
  later run (`Idempotency.LatePersistReplaysOldRun`), a prompt one cannot
  (`Idempotency.PromptIsOwn`).
- A refresh token can be accepted twice exactly when it is first presented in the second it was
  made in (`SignedTokens.ReusableExact`, `SignedTokens.AcceptedOnceLater`,
  `SignedTokens.AcceptedTwice`).
- A registration whose recalculation refuses the weights leaves an account without a mail behind
  (`SessionRuns.FailedRegistrationExact`, `SessionRuns.RefusedRegistrationStays`).
- A password change ends the refresh tokens but leaves access tokens valid until they expire
  (`SessionRuns.ChangeKeepsAccessTokens`).
- Opportunities without a status are hidden unless expired ones are included; they are the only
  rows a query asks for and does not get (`MatchQuery.WhereClauseMeaning`,
  `MatchQuery.MissingStatusIsHidden`).
- The normalised GPA is computed from the GPA before the column rounds it, and can differ from the
  normalisation of the stored GPA (`Educations.NormalizationCanDrift`); it does so exactly when a
  GPA does not round safely (`Educations.CreatedExactly`, `Educations.PatchedExactly`).
- A mutation whose recalculation refuses the weights fails and keeps the rows it has written
  (`ProfileRuns.FailedMutationWritesExact`, `ProfileRuns.RefusedWeightsStillRemove`); with weights
  that total 100 a failed mutation changes nothing (`ProfileRuns.FailuresAreAtomic`).

## Model

| member | source | states |
|---|---|---|
| `Slugs.GenerateUniqueSlug` | src/modules/drafts/pages/draft-pages.service.ts:22-47 | the probing loop ends after at most n + 1 lookups when n slugs are taken, and returns the first free candidate of `base`, `base-1`, `base-2`, … |
| `Slugs.DecimalRoundTrip` | src/modules/drafts/pages/draft-pages.service.ts:44 | printing a number in decimal and reading it back gives the number, so numbers never print alike |
| `Slugs.CandidatesDiffer` | src/modules/drafts/pages/draft-pages.service.ts:28-45 | no two rounds of the loop try the same slug |
| `Slugs.CandidateMeaning` | src/modules/drafts/pages/draft-pages.service.ts:28-45 | the n-th candidate is the base itself, or for n > 0 the base, a hyphen and n in digits without a leading zero |
| `Slugs.ProbesFit` | src/modules/drafts/pages/draft-pages.service.ts:31-46 | if the first k candidates are all taken, at least k slugs are taken (pigeonhole) |
| `Slugs.SearchEnds` | src/modules/drafts/pages/draft-pages.service.ts:31-46 | a free candidate exists among the first n + 1, for any finite set of taken slugs |
| `Slugs.FirstFreeIsUnique` | src/modules/drafts/pages/draft-pages.service.ts:40-42 | there is one first free candidate, so the result does not depend on the way it is found |
| `DraftRuns.SlugLookups` | src/modules/drafts/pages/draft-pages.service.ts:22-47 | with n live pages in the space at most n candidates are taken, so the search makes at most n + 1 lookups |
| `DraftRuns.SlugsStayUnique` | src/modules/drafts/pages/draft-pages.service.ts:126-261 | in every reachable state, across creates, retitling updates and soft deletes, live pages of one space have distinct slugs |
| `DraftRuns.RetitleMovesSlug` | src/modules/drafts/pages/draft-pages.service.ts:22-201 | a successful update keeps the slug if and only if it gives no title: even the stored title again moves it |
| `DraftRuns.NewSpaceIsNew` | src/modules/drafts/spaces/draft-spaces.service.ts:12-102 | a new space gets a slug its owner does not use and leaves every existing space as it was |
| `ProseMirror.RewriteMeaning` | src/modules/ai-assistant/ai-proposals/ai-proposals.service.ts:19-60 | for every JSON tree: the shape and every non-text field stay, each text node reached through `content` is changed at its first match and nowhere else, and the count is the number of matching text nodes |
| `ProseMirror.SkeletonAndTextsDetermine` | src/modules/ai-assistant/ai-proposals/ai-proposals.service.ts:24-59 | the shape and the list of texts determine the tree, so RewriteMeaning pins the result down completely |
| `ProseMirror.ReplaceFirstMeaning` | src/modules/ai-assistant/ai-proposals/ai-proposals.service.ts:41-47 | a matching text changes exactly at its first occurrence, which is replaced by the suggestion; any other text is unchanged |
| `ProseMirror.OwnText` | src/modules/ai-assistant/ai-proposals/ai-proposals.service.ts:41-57 | the texts of an object: its `text` string exactly if its `type` is "text", and then the texts of every item of its `content` array |
| `ProseMirror.CountOfNode` | src/modules/ai-assistant/ai-proposals/ai-proposals.service.ts:39-57 | the count of an object: one exactly if it is such a text node and contains the original, plus all matches below its `content` array |
| `ProseMirror.FieldsOfNode` | src/modules/ai-assistant/ai-proposals/ai-proposals.service.ts:38-59 | every field of a rewritten object: the text with its first occurrence replaced, each item of the content array rewritten, and every other field as it was |
| `ProseMirror.RewriteAtPath` | src/modules/ai-assistant/ai-proposals/ai-proposals.service.ts:24-59 | at every path through arrays and content arrays the rewrite acts alike: the node there becomes its own rewrite, and no path is lost or added |
| `Text.OccursExact` | src/modules/ai-assistant/ai-proposals/ai-proposals.service.ts:42-44 | the text contains the original at i exactly if it is i characters, the original, and a rest |
| `ProseMirror.RewriteLength` | src/modules/ai-assistant/ai-proposals/ai-proposals.service.ts:19-60 | the total text length changes by count times the difference of the lengths of the two texts |
| `ProseMirror.RewriteIdentity` | src/modules/ai-assistant/ai-proposals/ai-proposals.service.ts:19-60 | a rewrite with count 0 returns the tree it was given |
| `ProseMirror.TextRoundTrip` | src/modules/ai-assistant/ai-proposals/ai-proposals.service.ts:41-47 | replacing forth and back restores a text if and only if it is reversible: the suggestion does not already occur in an unmatched text, nor begin before the place of the change in a matched one |
| `ProseMirror.RoundTripExact` | src/modules/ai-assistant/ai-proposals/ai-proposals.service.ts:19-60 | rewriting forth and back gives the tree again if and only if every text is reversible, and then both counts agree |
| `ProseMirror.RoundTrip` | src/modules/ai-assistant/ai-proposals/ai-proposals.service.ts:19-60 | when the first character of the suggestion occurs in no text node, the swapped rewrite gives back the exact tree with the same count |
| `ProseMirror.FreshFirstCharacter` | src/modules/ai-assistant/ai-proposals/ai-proposals.service.ts:41-47 | a text without the first character of the suggestion is reversible |
| `ProseMirror.RoundTripCanFail` | src/modules/ai-assistant/ai-proposals/ai-proposals.service.ts:19-60 | a tree on which the swapped rewrite does not undo the rewrite, because the suggestion completes an earlier occurrence of itself |
| `DraftService.Service.CreateSpace` | src/modules/drafts/spaces/draft-spaces.service.ts:90-102 | creating a space through the probing loop does exactly what `Drafts.CreateSpace` says to the tables and returns its reply |
| `DraftService.Service.FindBySpaceAndId` | src/modules/drafts/pages/draft-pages.service.ts:49-82 | finds the live page of this owner in this space, or throws the error of the first missing row |
| `DraftService.Service.GenerateUniqueSlug` | src/modules/drafts/pages/draft-pages.service.ts:22-47 | the loop over the live pages of the space returns the first free candidate |
| `DraftService.Service.BuildPage` | src/modules/drafts/pages/draft-pages.service.ts:117-144 | the row of a new page: position after the last sibling, unique slug, given or empty content, DRAFT |
| `DraftService.Service.CreatePage` | src/modules/drafts/pages/draft-pages.service.ts:84-158 | every branch of page creation: parent and document checks, position after the last sibling, unique slug, first version; on an error nothing changes |
| `DraftService.Service.BuildUpdate` | src/modules/drafts/pages/draft-pages.service.ts:197-218 | the update object filled field by field gives the page that the three-valued merge of the request describes |
| `DraftService.Service.UpdatePage` | src/modules/drafts/pages/draft-pages.service.ts:160-248 | every branch of an update: lock, parent checks, merge, status move, and an auto-save version only when one is due |
| `DraftService.Service.SoftDelete` | src/modules/drafts/pages/draft-pages.service.ts:250-262 | marks exactly the one page deleted at the current moment |
| `DraftService.Service.FinalizePage` | src/modules/drafts/export/draft-export.service.ts:410-533 | creates a missing profile row, makes the checks in order, fails with the upload, and otherwise adds document row, FINALIZED page and finalized snapshot together |
| `DraftService.Service.CountDocuments` | src/modules/drafts/export/draft-export.service.ts:433-435 | counts the documents of the user |
| `DraftService.Service.Unlock` | src/modules/drafts/export/draft-export.service.ts:535-558 | sets a live page of the owner IN_PROGRESS and nothing else |
| `DraftService.Service.Revert` | src/modules/drafts/versions/draft-versions.service.ts:41-90 | refuses FINALIZED pages and foreign versions, otherwise restores the content and records it as a new version |
| `DraftService.Service.Propose` | src/modules/ai-assistant/ai-proposals/ai-proposals.service.ts:69-98 | adds one PENDING proposal for a live page of the owner |
| `DraftService.Service.CreateSnapshot` | src/modules/drafts/versions/draft-versions.service.ts:93-119 | stores the present content of the page as a version, or throws |
| `DraftService.Service.Accept` | src/modules/ai-assistant/ai-proposals/ai-proposals.service.ts:107-178 | the transaction: the status move, the snapshot and the rewrite happen together, and any failure rolls all tables back |
| `DraftService.Service.Reject` | src/modules/ai-assistant/ai-proposals/ai-proposals.service.ts:180-202 | rejects exactly a PENDING proposal of the user |
| `Drafts.LastPosition` | src/modules/drafts/pages/draft-pages.service.ts:117-126 | the position taken over by a new page is the largest one among the live siblings, if there are any |
| `Drafts.NewestVersion` | src/modules/drafts/pages/draft-pages.service.ts:227-230 | the version that decides about a snapshot is the newest one of the page |
| `DraftCalls.PageSlugExact` | src/modules/drafts/pages/draft-pages.service.ts:22-47 | the slug is the first candidate no live page of the space has, after the slugified title or "untitled" |
| `DraftCalls.CreateSpaceExact` | src/modules/drafts/spaces/draft-spaces.service.ts:12-102 | a new space takes the first candidate its owner has not used, after the slugified name or "workspace", and changes nothing else |
| `DraftCalls.PositionExact` | src/modules/drafts/pages/draft-pages.service.ts:117-126 | the position is one after the last live sibling, or 0 without siblings |
| `DraftCalls.CreatePageErrors` | src/modules/drafts/pages/draft-pages.service.ts:85-115 | exactly when a page is created and which error is given otherwise; an error changes nothing |
| `DraftCalls.CreatePageExact` | src/modules/drafts/pages/draft-pages.service.ts:117-157 | every column of a created page, and a first version exactly if content was given |
| `DraftCalls.UpdatePageErrors` | src/modules/drafts/pages/draft-pages.service.ts:166-195 | exactly when an update succeeds and which error is given otherwise; an error changes nothing |
| `DraftCalls.UpdatePageExact` | src/modules/drafts/pages/draft-pages.service.ts:197-223 | an update stores each given field and keeps each other one, a null parent clears the parent, content moves a DRAFT along, a given status has the last word |
| `DraftCalls.AutoSaveExact` | src/modules/drafts/pages/draft-pages.service.ts:225-245 | an update adds its content as a version if and only if every version of the page is older than 60 000 ms |
| `DraftCalls.SoftDeleteExact` | src/modules/drafts/pages/draft-pages.service.ts:250-262 | exactly when a page is deleted, and that only its stamp changes |
| `DraftCalls.DocumentCountExact` | src/modules/drafts/export/draft-export.service.ts:433-435 | the count is the number of documents of the user |
| `DraftCalls.FinalizeErrors` | src/modules/drafts/export/draft-export.service.ts:411-465 | exactly when a finalize succeeds, which error is given otherwise, and what an error leaves |
| `DraftCalls.FinalizeExact` | src/modules/drafts/export/draft-export.service.ts:483-516 | the document, the page and the snapshot a finalize writes, and nothing else |
| `DraftCalls.UnlockExact` | src/modules/drafts/export/draft-export.service.ts:535-558 | exactly when a page is unlocked, and that only its status changes |
| `DraftCalls.RevertExact` | src/modules/drafts/versions/draft-versions.service.ts:41-90 | a revert needs an open page of the user and a version of that page by that user; then content, status and the new version |
| `DraftCalls.ProposeExact` | src/modules/ai-assistant/ai-proposals/ai-proposals.service.ts:69-98 | exactly when a proposal is added, and its row |
| `DraftCalls.AcceptExact` | src/modules/ai-assistant/ai-proposals/ai-proposals.service.ts:107-178 | exactly when an accept succeeds, which error is given otherwise, and the three rows it writes |
| `DraftCalls.RejectExact` | src/modules/ai-assistant/ai-proposals/ai-proposals.service.ts:180-202 | exactly when a proposal is rejected, and that only its status changes |
| `DraftRuns.StepKeepsRows` | src/modules/drafts/pages/draft-pages.service.ts:84-262 | no call removes a row or moves a page to another owner or space, stored versions stay as they are, and a failing call changes at most the set of profiles |
| `DraftRuns.FailedCallExact` | src/modules/drafts/export/draft-export.service.ts:422-479 | a failing call changes something if and only if it is a finalize of a live page whose owner had no profile |
| `DraftRuns.FailedFinalizeWrites` | src/modules/drafts/export/draft-export.service.ts:422-454 | a finalize with an unknown document type, three calls from the empty database, fails and has created the profile |
| `DraftRuns.RunKeepsRows` | src/modules/drafts/pages/draft-pages.service.ts:84-262 | the same over any stretch of a run: versions are never altered or removed |
| `DraftRuns.CallersTouchTheirOwn` | src/modules/drafts/pages/draft-pages.service.ts:49-262 | no call touches the pages, proposals or spaces of another user |
| `DraftRuns.VersionsAreOwned` | src/modules/drafts/versions/draft-versions.service.ts:42-118 | in every reachable state a version was stored by the owner of its page |
| `DraftRuns.StepAddsVersion` | src/modules/drafts/pages/draft-pages.service.ts:146-245 | a call adds at most one version, stamped with its moment, holding the content of the page just before or just after it |
| `DraftRuns.VersionsAreReal` | src/modules/drafts/versions/draft-versions.service.ts:72-118 | every stored version holds a content its page really had at the moment it was stored |
| `DraftRuns.AutoSavesStaySpaced` | src/modules/drafts/pages/draft-pages.service.ts:226-245 | in every reachable state an auto-save version comes more than 60 000 ms after every earlier version of its page |
| `DraftRuns.SpacedAutoSaves` | src/modules/drafts/pages/draft-pages.service.ts:232-234 | spacing alone bounds the auto-saves in an interval of L ms by floor(L / 60001) + 1 |
| `DraftRuns.AutoSaveRate` | src/modules/drafts/pages/draft-pages.service.ts:226-245 | in every reachable state any interval of L ms holds at most floor(L / 60000) + 1 auto-save versions of a page |
| `DraftRuns.LockHolds` | src/modules/drafts/pages/draft-pages.service.ts:168-174 | along any stretch in which a page stays FINALIZED its content, title, slug, position and parent are constant |
| `DraftRuns.LockEndsExact` | src/modules/drafts/export/draft-export.service.ts:535-552 | a FINALIZED page leaves the state if and only if its owner unlocks it or accepts a pending proposal with a matching text |
| `DraftRuns.OnlyAcceptBreaksLock` | src/modules/ai-assistant/ai-proposals/ai-proposals.service.ts:143-169 | of the locked fields of a FINALIZED page only the content ever changes in a call, and it does if and only if an accepted proposal rewrites it to a different tree |
| `DraftRuns.FinalizedPageRewritten` | src/modules/ai-assistant/ai-proposals/ai-proposals.service.ts:107-178 | five calls from the empty database after which an accept has rewritten a FINALIZED page without an unlock |
| `DraftRuns.FinalizedSnapshotMatches` | src/modules/drafts/export/draft-export.service.ts:498-516 | from a finalize on, while the page stays FINALIZED, its content equals the snapshot that call stored, linked to the document it made |
| `DraftRuns.StepKeepsDecided` | src/modules/ai-assistant/ai-proposals/ai-proposals.service.ts:109-187 | a decided proposal never changes, and a PENDING one only by its own accept or reject |
| `DraftRuns.DecidedForever` | src/modules/ai-assistant/ai-proposals/ai-proposals.service.ts:107-202 | once decided, a proposal is the same row in every later state |
| `DraftRuns.DecidedOnce` | src/modules/ai-assistant/ai-proposals/ai-proposals.service.ts:107-202 | in a run at most one accept or reject of a proposal succeeds; later ones throw the conflict |
| `DraftRuns.AcceptMeaning` | src/modules/ai-assistant/ai-proposals/ai-proposals.service.ts:107-178 | an accept succeeds if and only if the proposal is pending, the page live and a text matches; then it rewrites the page and adds exactly one version with the prior content; otherwise nothing changes |
| `DraftRuns.RevertRestores` | src/modules/drafts/versions/draft-versions.service.ts:41-90 | reverting to the version of an accept, at any later time when the page is live and not FINALIZED, succeeds and restores the content exactly |
| `DraftRuns.SwappedProposalUndoes` | src/modules/ai-assistant/ai-proposals/ai-proposals.service.ts:107-178 | accepting the swapped proposal next always succeeds, and restores the page if and only if all its texts are reversible |
| `DraftRuns.ParentsStayInSpace` | src/modules/drafts/pages/draft-pages.service.ts:87-195 | in every reachable state a parent is another page of the same owner and space |
| `DraftRuns.NewPageIsLast` | src/modules/drafts/pages/draft-pages.service.ts:117-126 | a new page is placed after all its live siblings |
| `InlineMarks.MapMarks` | src/modules/drafts/export/draft-export.service.ts:128-173 | the loop over the marks computes the left-to-right application of each mark to the plain style |
| `InlineMarks.LinksAreSafe` | src/modules/drafts/export/draft-export.service.ts:155-168 | a link in the PDF is always the trimmed target of one of the marks and has the scheme http, https or mailto |
| `InlineMarks.SchemesExact` | src/modules/drafts/export/draft-export.service.ts:158-163 | a target is let through exactly if it begins with http://, https:// or mailto:, with no regard to case |
| `InlineMarks.StyleFacts` | src/modules/drafts/export/draft-export.service.ts:130-169 | in any list of marks, bold, italics, code and the link colour tell which marks are there |
| `InlineMarks.LinkExact` | src/modules/drafts/export/draft-export.service.ts:155-168 | in any list of marks, the link is the trimmed target of the last link whose target has an allowed scheme |
| `InlineMarks.DecorationBesideLink` | src/modules/drafts/export/draft-export.service.ts:138-168 | beside a link, the text is struck through exactly if a strike follows the link and no underline follows the strike |
| `InlineMarks.StyleIsCanonical` | src/modules/drafts/export/draft-export.service.ts:130-171 | without duplicates and without strike beside a link, the style is a function of which marks are present |
| `InlineMarks.OrderIrrelevant` | src/modules/drafts/export/draft-export.service.ts:130-171 | for such marks every order gives the same style |
| `InlineMarks.OrderMatters` | src/modules/drafts/export/draft-export.service.ts:138-168 | with both a strike and a link, two orders give different styles |
| `InlineMarks.OrderIrrelevantExact` | src/modules/drafts/export/draft-export.service.ts:130-171 | for marks without duplicates the order is irrelevant if and only if strike and link do not occur together |
| `PdfExport.CompileKeepsText` | src/modules/drafts/export/draft-export.service.ts:177-315 | compiling a schema-valid tree keeps every character in document order, an empty paragraph as one space, each with the style its marks ask for, its kind of text block and the depth of quoting, and keeps the ends of text blocks and the lines |
| `PdfExport.CodeBlockShows` | src/modules/drafts/export/draft-export.service.ts:278-290 | a code block shows the text field of each child in order, as a plain listing |
| `PdfExport.ParagraphShows` | src/modules/drafts/export/draft-export.service.ts:215-222 | a paragraph shows the text field of each leaf in the style of its marks, or one space if it has none |
| `PdfExport.HeadingShows` | src/modules/drafts/export/draft-export.service.ts:192-214 | a heading shows its leaves in the font size of its level |
| `PdfExport.TextNodeShows` | src/modules/drafts/export/draft-export.service.ts:307-308 | a text node outside a text block shows its text field in the style of its marks |
| `PdfExport.PlainExports` | src/modules/drafts/export/draft-export.service.ts:317-337 | stored content that is no tree exports to one text, empty for nothing |
| `PdfExport.ItemsAreNodes` | src/modules/drafts/export/draft-export.service.ts:223-265 | the inlined list item case gives what compiling the item as a node gives |
| `PdfExport.ItemExact` | src/modules/drafts/export/draft-export.service.ts:226-265 | a list item with one compiled child becomes that child, otherwise the array of its compiled children |
| `PdfExport.FlattenMeaning` | src/modules/drafts/export/draft-export.service.ts:342-351 | flattening yields no arrays and keeps the text with its styles in order |
| `PdfExport.FlattenKeepsLeaves` | src/modules/drafts/export/draft-export.service.ts:342-351 | flattening keeps every non-array block exactly as often as it occurs under arrays |
| `PdfExport.FlattenDissolves` | src/modules/drafts/export/draft-export.service.ts:342-351 | dissolving an array in place, anywhere in a list, leaves the flattened list the same, so blocks keep number and order |
| `PdfExport.FlattenFixed` | src/modules/drafts/export/draft-export.service.ts:342-351 | flattening leaves a list as it is if and only if the list holds no array |
| `PdfExport.ExportKeepsText` | src/modules/drafts/export/draft-export.service.ts:317-352 | the whole export of a schema-valid tree has array-free blocks that show the same characters in the same order and styles |
| `PdfExport.ExportNonEmptyExact` | src/modules/drafts/export/draft-export.service.ts:338-351 | the export has no block at all if and only if the tree compiles but nothing in it is visible |
| `PdfExport.EmptyExportExists` | src/modules/drafts/export/draft-export.service.ts:307-351 | a schema-valid document with one empty table exports to no block, so the output is not always non-empty |
| `PdfExport.CompileKeepsLists` | src/modules/drafts/export/draft-export.service.ts:223-265 | for every tree, compiling keeps every list with its kind, its number of items and the lists nested in each item if and only if no list has a child that the compiler drops |
| `PdfExport.ExportKeepsLists` | src/modules/drafts/export/draft-export.service.ts:317-352 | the whole export keeps the same lists, item counts and nesting, in the same order, under exactly that condition |
| `PdfExport.ItemsAreNeverDropped` | src/modules/drafts/export/draft-export.service.ts:225-238 | lists whose children are all list items lose none |
| `PdfExport.DroppedItemExists` | src/modules/drafts/export/draft-export.service.ts:236-238 | a list with an unknown child without content exports with one item less |
| `AuthService.Service.StoreRefreshToken` | src/modules/auth/auth.service.ts:71-80 | adds the key and its index entry, both for seven days |
| `AuthService.Service.RevokeRefreshToken` | src/modules/auth/auth.service.ts:82-90 | removes the key and its index entry; an index left empty disappears |
| `AuthService.Service.RevokeAllUserRefreshTokens` | src/modules/auth/auth.service.ts:99-108 | deletes every refresh key of the user and the index |
| `AuthService.Service.GetOrInitTokenVersion` | src/modules/auth/auth.service.ts:659-667 | reads the stored version, starting it at 1 |
| `AuthService.Service.IncrementTokenVersion` | src/modules/auth/auth.service.ts:669-672 | raises the stored version by one, from 0 when there is none |
| `AuthService.Service.GenerateTokens` | src/modules/auth/auth.service.ts:674-698 | issues two new tokens that carry the current version |
| `AuthService.Service.Register` | src/modules/auth/auth.service.ts:125-195 | the registration policy, the duplicate check, the new unverified account, the recalculation that may refuse, and the verification token for a day |
| `AuthService.Service.Login` | src/modules/auth/auth.service.ts:198-300 | the checks in order, then new tokens with the refresh token stored |
| `AuthService.Service.VerifyEmail` | src/modules/auth/auth.service.ts:303-348 | only the current live token verifies its user, and it is consumed |
| `AuthService.Service.ResendVerification` | src/modules/auth/auth.service.ts:351-378 | replaces the current verification token of an unverified user; silent otherwise |
| `AuthService.Service.ForgotPassword` | src/modules/auth/auth.service.ts:381-406 | issues a reset token for an hour; silent for unknown users |
| `AuthService.Service.ResetPassword` | src/modules/auth/auth.service.ts:409-448 | only the current live token resets; password, refresh keys, version and token change together |
| `AuthService.Service.ChangePassword` | src/modules/auth/auth.service.ts:451-494 | needs the current password; ends the refresh tokens but not the version |
| `AuthService.Service.ForcePasswordReset` | src/modules/auth/auth.service.ts:501-530 | flags the account, deletes its refresh keys and raises its version; not applicable to accounts without a password |
| `AuthService.Service.Refresh` | src/modules/auth/auth.service.ts:532-585 | the checks in order, then the presented token is swapped for a new one |
| `AuthService.Service.ValidateUser` | src/modules/auth/auth.service.ts:593-633 | accepts a verified token that is neither blacklisted nor older than the stored version |
| `AuthService.Service.Logout` | src/modules/auth/auth.service.ts:636-647 | deletes the refresh keys and blacklists the token until it expires |
| `SessionCalls.RegisterErrors` | src/modules/auth/auth.service.ts:125-194 | exactly when a registration succeeds and which error is given otherwise |
| `SessionCalls.RegisterExact` | src/modules/auth/auth.service.ts:170-186 | the account and the day-long verification token a registration leaves |
| `SessionCalls.LoginErrors` | src/modules/auth/auth.service.ts:198-263 | exactly when a login succeeds and which error is given otherwise; an error changes nothing |
| `SessionCalls.LoginExact` | src/modules/auth/auth.service.ts:287-299 | the two tokens, the seven-day refresh key and its index entry a login leaves |
| `SessionCalls.VerifyExact` | src/modules/auth/auth.service.ts:303-348 | exactly which tokens verify which user, which error is given otherwise, and what is consumed |
| `SessionCalls.ResendExact` | src/modules/auth/auth.service.ts:351-378 | exactly whose current verification token is replaced, for a day |
| `SessionCalls.ForgotExact` | src/modules/auth/auth.service.ts:381-406 | exactly who gets a reset token for an hour; nobody gets an error |
| `SessionCalls.ResetErrors` | src/modules/auth/auth.service.ts:409-428 | exactly which tokens reset a password and which error is given otherwise |
| `SessionCalls.ResetExact` | src/modules/auth/auth.service.ts:430-447 | the password, keys, version and consumed token a reset leaves |
| `SessionCalls.ChangeErrors` | src/modules/auth/auth.service.ts:451-480 | a change succeeds if and only if the stored password was given; otherwise which error, and nothing changes |
| `SessionCalls.ChangeExact` | src/modules/auth/auth.service.ts:482-493 | the password and keys a change leaves, with the version as it was |
| `SessionCalls.ForceExact` | src/modules/auth/auth.service.ts:501-530 | exactly to whom a forced reset applies, and the flag, keys and version it leaves |
| `SessionCalls.PasswordSetExact` | src/modules/auth/auth.service.ts:409-494 | in every run the password of a user with an account is set by exactly the events that give the stored one or redeem the current reset mail |
| `SessionCalls.RefreshErrors` | src/modules/auth/auth.service.ts:541-573 | exactly when a refresh succeeds and which error is given otherwise; an error changes nothing |
| `SessionCalls.RefreshExact` | src/modules/auth/auth.service.ts:576-584 | the tokens, key and index a refresh leaves |
| `SessionCalls.ValidateExact` | src/modules/auth/auth.service.ts:593-633 | exactly which tokens the guard accepts, and which error is given otherwise |
| `SessionCalls.LogoutExact` | src/modules/auth/auth.service.ts:636-647 | the keys a logout deletes, and the blacklist entry for exactly the seconds the token has left |
| `SessionRuns.Reachable` | src/modules/auth/auth.service.ts:71-108 | the invariants of every reachable state: complete index sets, refresh keys only for verified users without a pending reset, versions bounded, blacklist entries long enough |
| `SessionRuns.IndexCoversLiveKeys` | src/modules/auth/auth.service.ts:71-90 | every live refresh key is listed in the index set of its user, which does not expire before the key |
| `SessionRuns.NoSessionWhileBlocked` | src/modules/auth/auth.service.ts:245-263 | a user who is unverified or must reset the password has no live refresh token in any reachable state |
| `SessionRuns.SpentForever` | src/modules/auth/auth.service.ts:532-585 | a refresh token that has lost its key never gets it back |
| `SessionRuns.RefreshedOnce` | src/modules/auth/auth.service.ts:559-579 | in a run each refresh token is accepted at most once |
| `SessionRuns.RefreshKeepsCount` | src/modules/auth/auth.service.ts:575-579 | a refresh exchanges one live token of its user for a new one, so every user keeps the same number |
| `SessionRuns.SessionsEnd` | src/modules/auth/auth.service.ts:441-637 | logout, change, reset and forced reset leave the user no refresh token at any later moment |
| `SessionRuns.VersionsGrow` | src/modules/auth/auth.service.ts:659-680 | issued tokens stay issued and no stored version ever decreases |
| `SessionRuns.ResetRevokesTokens` | src/modules/auth/auth.service.ts:441-623 | after a reset or a forced reset no token issued to the user before is accepted in any later state at any time |
| `SessionRuns.ChangeKeepsAccessTokens` | src/modules/auth/auth.service.ts:451-494 | a password change leaves the verdict on every access token as it was |
| `SessionRuns.LogoutIsFinal` | src/modules/auth/auth.service.ts:593-647 | after logout the token is never accepted again, in any later state, then or later |
| `SessionRuns.CurrentIsLast` | src/modules/auth/auth.service.ts:183-399 | the current mail token of a user is the last one issued to them, with its lifetime |
| `SessionRuns.RedeemedTokenIsLast` | src/modules/auth/auth.service.ts:303-447 | a verification or reset token succeeds only inside its lifetime and only while no later one was issued to its user |
| `SessionRuns.RedeemedOnce` | src/modules/auth/auth.service.ts:344-447 | a verification or reset token succeeds at most once in a run |
| `SessionRuns.LoginTokensWork` | src/modules/auth/auth.service.ts:198-633 | in every reachable state the tokens of a login are accepted, by the guard and by a refresh, exactly until they expire, if nothing else happens |
| `SessionRuns.NewPasswordLogsIn` | src/modules/auth/auth.service.ts:198-494 | after a reset or a change exactly the new password logs an active, verified user in |
| `SessionRuns.RegistrationFlow` | src/modules/auth/auth.service.ts:157-348 | if nothing else happens, the mailed token of a registration works exactly for a day, and the user logs in after it was redeemed and not before |
| `SessionRuns.FailedRegistrationExact` | src/modules/auth/auth.service.ts:126-194 | a failed registration leaves an account behind if and only if the policy admits the new user and the recalculation refuses; asking for another mail then completes it, exactly for a day |
| `SessionRuns.RefusedRegistrationStays` | src/modules/auth/auth.service.ts:170-185 | from the empty store, a registration whose recalculation refuses fails and leaves its unverified account without a mail |
| `SessionRuns.UnverifiedExact` | src/modules/auth/auth.service.ts:157-342 | in every run a user is unverified if and only if a registration was not followed by a redeemed mail |
| `SessionRuns.KeptOutUntilVerified` | src/modules/auth/auth.service.ts:245-253 | from a registration until a redeemed mail, whatever else happens, no login and no refresh of the user succeeds |
| `SessionRuns.ForcedResetFlow` | src/modules/auth/auth.service.ts:255-530 | if nothing else happens, no password works after a forced reset until the mailed token is redeemed, which works exactly for an hour |
| `SessionRuns.ResetRequiredExact` | src/modules/auth/auth.service.ts:432-526 | in every run a user must reset the password if and only if a forced reset was not followed by a reset or a change |
| `SessionRuns.KeptOutUntilReset` | src/modules/auth/auth.service.ts:255-263 | from a forced reset until a new password, whatever else happens, no login and no refresh of the user succeeds |
| `SessionRuns.NothingAcceptedUntilReset` | src/modules/auth/auth.service.ts:520-623 | in that time the guard accepts no token of the user either, at any moment |
| `SessionCalls.OutsideExact` | src/modules/auth/auth.service.ts:215-234 | an account made by single sign-on is active, verified and without a password, and deactivation changes the activity alone, the two states of an account that a login refuses |
| `SignedTokens.MintedAgain` | src/modules/auth/auth.service.ts:674-698 | the token made for the owner of a stored token is that very string if and only if it is made in the same second |
| `SignedTokens.ReusableExact` | src/modules/auth/auth.service.ts:532-585 | a refresh gives the presented token back, and the token is accepted again until it expires, if and only if the refresh falls into the second the token was made in |
| `SignedTokens.AcceptedOnceLater` | src/modules/auth/auth.service.ts:559-579 | in every run a refresh token accepted after the second it was made in is never accepted again |
| `SignedTokens.AcceptedTwice` | src/modules/auth/auth.service.ts:559-579 | a run of a login and two refreshes within one second in which one token is accepted twice |
| `SignedTokens.VersionExact` | src/modules/auth/auth.service.ts:659-680 | in every run the stored version of a user never drops, and stays the same if and only if no reset raises it |
| `SignedTokens.SharedTokenExact` | src/modules/auth/auth.service.ts:674-698 | in every run, the refresh tokens of two logins or refreshes of a user are the same string if and only if both fall into one second and no reset of the user lies between |
| `SignedTokens.EndExact` | src/modules/auth/auth.service.ts:99-108 | the end of the sessions deletes exactly the keys of the user and raises the version only if asked to |
| `Throttler.Storage.IncrPttl` | src/common/throttler/redis-throttler.storage.ts:24-34 | INCR and PTTL of one transaction |
| `Throttler.Storage.Increment` | src/common/throttler/redis-throttler.storage.ts:11-46 | a hit counts up inside its window or opens a new one of length ttl, and is blocked when the count exceeds the limit |
| `Throttler.HitExact` | src/common/throttler/redis-throttler.storage.ts:24-39 | a hit opens a window of length ttl exactly if none is open, counts up in the open one otherwise, and leaves other keys alone |
| `Throttler.CeilSeconds` | src/common/throttler/redis-throttler.storage.ts:43 | the reported seconds are the milliseconds rounded up |
| `Throttler.SlidingBound` | src/common/throttler/redis-throttler.storage.ts:24-46 | any half-open interval of length ttl admits at most 2 * limit - 1 hits on a key, one fewer than two full windows |
| `Throttler.SlidingBoundReached` | src/common/throttler/redis-throttler.storage.ts:24-46 | the bound 2 * limit - 1 is reached for every limit and every ttl above one millisecond |
| `Throttler.WindowBoundHolds` | src/common/throttler/redis-throttler.storage.ts:24-46 | from the start of the newest window on at most min(hits, limit) hits are admitted, and one fewer after its first moment |
| `Throttler.NewestWindow` | src/common/throttler/redis-throttler.storage.ts:33-39 | the counter counts exactly the hits of the newest window |
| `Throttler.WindowAdmitsExactly` | src/common/throttler/redis-throttler.storage.ts:36-44 | each window admits exactly min(limit, hits) of its hits |
| `Throttler.BlockedUntilWindowEnd` | src/common/throttler/redis-throttler.storage.ts:36-44 | a blocked key stays blocked until its window ends |
| `Idempotency.Middleware.Use` | src/common/middleware/idempotency.middleware.ts:29-154 | every decision of the middleware on an incoming request, and the record it stores when it starts the handler |
| `Idempotency.Middleware.Json` | src/common/middleware/idempotency.middleware.ts:117-124 | the first response of a running request completes its record |
| `Idempotency.Middleware.Persisted` | src/common/middleware/idempotency.middleware.ts:126-127 | the completed record replaces the one in the cache for another 24 h |
| `Idempotency.UuidExact` | src/common/middleware/idempotency.middleware.ts:20-21 | a key passes exactly if it is 8, 4, 4, 4 and 12 hexadecimal digits with the version 4 and a variant digit of 8 to b |
| `Idempotency.DecideExact` | src/common/middleware/idempotency.middleware.ts:30-104 | exactly which requests pass through, conflict, wait, are replayed or start the handler |
| `Idempotency.BeginExact` | src/common/middleware/idempotency.middleware.ts:106-115 | what a begin records, for 24 h, and that other decisions change nothing |
| `Idempotency.RespondAndPersistExact` | src/common/middleware/idempotency.middleware.ts:117-127 | the first response is kept, and persisting it completes the record for 24 h |
| `Idempotency.RerunExact` | src/common/middleware/idempotency.middleware.ts:60-115 | within 24 h of a begin the handler starts again under the key if and only if the kept response of the same request has no JSON body |
| `Idempotency.HandledOnce` | src/common/middleware/idempotency.middleware.ts:60-115 | with JSON bodies under the key, for any interleaving, the handler runs at most once per key within 24 h of a begin |
| `Idempotency.ReplayIsGenuine` | src/common/middleware/idempotency.middleware.ts:88-103 | every replay gives the status and body that the handler of an earlier identical request under the key gave |
| `Idempotency.NoBodyRunsTwice` | src/common/middleware/idempotency.middleware.ts:88-115 | a persisted response without a JSON form lets the same request start the handler again |
| `Idempotency.OwnerExact` | src/common/middleware/idempotency.middleware.ts:106-131 | in every run the record of a key belongs to the latest begin under it if and only if no other request persisted last, and is completed if and only if something was persisted since |
| `Idempotency.LatestFor24Hours` | src/common/middleware/idempotency.middleware.ts:60-115 | with JSON bodies under the key a begin stays the latest one under its key for 24 h |
| `Idempotency.AnsweredFromOneRun` | src/common/middleware/idempotency.middleware.ts:63-104 | with JSON bodies under the key, each request within 24 h of a begin under its key is answered from one run: of this begin if no other request persisted last, waiting exactly while nothing is persisted, and otherwise of a finished earlier begin |
| `Idempotency.PromptIsOwn` | src/common/middleware/idempotency.middleware.ts:118-131 | if responses under the key are persisted within 24 h of their begin, no other request ever persists last |
| `Idempotency.ReplayedOncePersisted` | src/common/middleware/idempotency.middleware.ts:88-131 | once the response of a run is persisted, every identical request within 24 h of its begin gets that response, unless another request persisted last |
| `Idempotency.LatePersistReplaysOldRun` | src/common/middleware/idempotency.middleware.ts:118-131 | a response persisted after its record expired displaces a later run |
| `MatchQuery.BuildOpportunityWhere` | src/modules/opportunities/opportunity-filter.builder.ts:9-76 | throws exactly for an inverted deadline range, otherwise gives the clause with one key for each given filter |
| `MatchQuery.FilterClauseMeaning` | src/modules/opportunities/opportunity-filter.builder.ts:21-75 | under three-valued evaluation that clause holds exactly of the opportunities that pass every given filter |
| `MatchQuery.WordsExact` | src/modules/opportunities/opportunity-filter.builder.ts:49-63 | the words of a list are exactly its non-blank parts between commas, without the spaces around them |
| `Text.TrimMeaning` | src/modules/opportunities/opportunity-filter.builder.ts:66 | trimming removes exactly the runs of spaces at both ends |
| `Text.SpaceCodes` | src/modules/opportunities/opportunity-filter.builder.ts:66 | the space characters by their codes |
| `Text.Lower` | src/modules/opportunities/opportunity-filter.builder.ts:69-70 | lower-casing moves the codes 65 to 90 up by 32 and leaves all others |
| `MatchQuery.MovedOrMeaning` | src/modules/recommendations/recommendations.repository.ts:62-70 | moving the text search from OR under AND keeps its meaning and adds the expiry rule as a conjunct |
| `MatchQuery.WhereClauseMeaning` | src/modules/recommendations/recommendations.repository.ts:34-82 | for every query and row, the clause selects the row if and only if the query asks for it (own row, positive score of at least min_score, every filter holds and, unless expired ones are included, neither past its deadline nor known inactive) and its status is known or expired ones are included |
| `MatchQuery.BuildWhere` | src/modules/recommendations/recommendations.repository.ts:34-82 | the step-by-step builder gives that clause, or throws exactly for an inverted deadline range |
| `MatchQuery.MissingStatusIsHidden` | src/modules/recommendations/recommendations.repository.ts:74 | a row without a status that a query without filters asks for; its clause selects it only when expired ones are included |
| `MatchPages.ExactlyOneArrangement` | src/modules/recommendations/recommendations.constants.ts:16-20 | each ordering with its tie-break admits exactly one arrangement of the rows of a user |
| `MatchPages.EffectiveLimit` | src/modules/recommendations/recommendations.service.ts:50 | the page size is always between 1 and 100 |
| `MatchPages.EffectivePage` | src/modules/recommendations/recommendations.service.ts:51 | the page number is at least 1 |
| `MatchPages.PagesCoverAll` | src/modules/recommendations/recommendations.service.ts:50-87 | pages 1 to ceil(total / limit), one after the other, are the whole listing |
| `MatchPages.PageEmptyExact` | src/modules/recommendations/recommendations.service.ts:50-87 | a page is empty if and only if it lies after page ceil(total / limit) |
| `MatchPages.RowOnOnePage` | src/modules/recommendations/recommendations.service.ts:50-52 | row i is on page i / limit + 1 and on no other |
| `MatchPages.MatchOnOnePage` | src/modules/recommendations/recommendations.service.ts:50-87 | each row of the user is on exactly one of the pages |
| `MatchPages.MetaMeaning` | src/common/utils/paginate.util.ts:1-13 | hasNext holds if and only if rows remain, and hasPrev if and only if the page before exists and has rows |
| `MatchCache.NormalizeExact` | src/modules/recommendations/recommendations.service.ts:54-62 | two queries share a cache entry if and only if they define the same entries, in whatever order |
| `MatchCache.MatchService.FindMatches` | src/modules/recommendations/recommendations.repository.ts:84-117 | returns the requested slice and the total of the shown rows in order |
| `MatchCache.MatchService.GetMatches` | src/modules/recommendations/recommendations.service.ts:37-113 | sort check, cache lookup, query and cache fill, as `MatchCache.Get` says |
| `MatchCache.ListingIsArranged` | src/modules/recommendations/recommendations.service.ts:80-99 | the listing is the one arrangement of the shown rows, and its pages give it back |
| `MatchCache.RowsInPlace` | src/modules/recommendations/recommendations.constants.ts:16-20 | of any two rows of the listing the earlier has the higher score, the lower one, or the later calculation, by the ordering, and among equals the smaller opportunity id |
| `MatchCache.ListingErrors` | src/modules/recommendations/recommendations.service.ts:41-48 | exactly when a request for a listing is refused, and with which error |
| `MatchCache.ListingExact` | src/modules/recommendations/recommendations.service.ts:50-99 | the page and limit in force with their defaults 1 and 20 and the bound 100, best scores first without a sort, and the rows, total and number of pages |
| `MatchCache.ServedAgain` | src/modules/recommendations/recommendations.service.ts:54-105 | a computed listing is served again to the same user for the same entries exactly while the TTL lasts |
| `MatchCache.RefusalExact` | src/modules/recommendations/recommendations.service.ts:41-48 | an unknown sort is refused whatever is cached, and a refused call leaves the cache alone |
| `MatchCache.AnswersAreListings` | src/modules/recommendations/recommendations.service.ts:66-112 | every listing served is the true listing of the rows at the moment of some call less than the cache TTL ago, or now |
| `ProfileService.Service.ComputeCompletionPct` | src/modules/profile/services/profile.service.ts:268-345 | the accumulated score, rounded and capped, is the percentage of the filled fields |
| `ProfileService.Service.Recalculate` | src/modules/profile/services/profile.service.ts:353-427 | stores percentage, match flag and next version, or throws on weights that do not total 100 |
| `ProfileService.Service.UpdateProfile` | src/modules/profile/services/profile.service.ts:102-256 | every check in order, the merge of the given fields, and the recalculation |
| `ProfileService.Service.AddTarget` | src/modules/profile/services/preferences.service.ts:33-170 | a capped, idempotent addition of a target degree, major or institution |
| `ProfileService.Service.RemoveTarget` | src/modules/profile/services/preferences.service.ts:68-187 | removes exactly an existing target |
| `ProfileService.Service.CreateEducation` | src/modules/profile/services/educations.service.ts:126-217 | every check in order, the row with its derived fields, and the recalculation |
| `ProfileService.Service.UpdateEducation` | src/modules/profile/services/educations.service.ts:261-381 | the update of one record and the recalculation |
| `ProfileService.Service.Patch` | src/modules/profile/services/educations.service.ts:272-370 | every check of a partial update in order, and the merged row it writes |
| `ProfileService.Service.RemoveEducation` | src/modules/profile/services/educations.service.ts:383-400 | removes exactly one record and recalculates |
| `ProfileScore.IdentityWorth` | src/modules/profile/services/profile.service.ts:21-28 | of 18 points, scaled to the weight of the group, filling a name adds 3, the date of birth 5, the gender 4, the marital status 3 |
| `ProfileScore.LocationWorth` | src/modules/profile/services/profile.service.ts:29-32 | of 15 points, filling the country of residence adds 8 and the nationality 7 |
| `ProfileScore.EducationWorth` | src/modules/profile/services/profile.service.ts:33-36 | of 35 points, filling the education level adds 10 and having a record 25 |
| `ProfileScore.RecordsWorth` | src/modules/profile/services/profile.service.ts:37-42 | having a language adds the whole weight of its group, and so does having a test |
| `ProfileScore.PreferenceWorth` | src/modules/profile/services/profile.service.ts:43-48 | of 15 points, having a special status adds 3, a target degree 4, a major 5, an institution 3 |
| `ProfileScore.FilledExact` | src/modules/profile/services/profile.service.ts:275-342 | what counts as filled, column by column |
| `ProfileCalls.RecalculatedExact` | src/modules/profile/services/profile.service.ts:396-424 | a recalculation needs weights totalling 100, rounds the score to the nearest percent, compares it with the threshold, and writes nothing else |
| `Profile.Round` | src/modules/profile/services/profile.service.ts:344 | rounding to the nearest integer, halves upwards |
| `ProfileCalls.UpdateErrorExact` | src/modules/profile/services/profile.service.ts:111-247 | exactly when an update of the profile is refused, and with which error |
| `ProfileCalls.UpdatedFieldsExact` | src/modules/profile/services/profile.service.ts:193-252 | every column after an update; a stored city outside the new country, and no other, is dropped |
| `ProfileCalls.AddTargetExact` | src/modules/profile/services/preferences.service.ts:33-170 | exactly when a target is added, with the caps 5 and 10 unless configured, and the row |
| `ProfileCalls.RemoveTargetExact` | src/modules/profile/services/preferences.service.ts:68-187 | exactly when a target is removed, and the row |
| `ProfileCalls.CreateErrorExact` | src/modules/profile/services/educations.service.ts:126-206 | exactly when a new record is refused, and with which error |
| `ProfileCalls.NewEducationExact` | src/modules/profile/services/educations.service.ts:190-206 | every column of a new record |
| `ProfileCalls.PatchReferencesExact` | src/modules/profile/services/educations.service.ts:272-282 | a patch is checked for its minor first and then for each reference it gives |
| `ProfileCalls.PatchErrorExact` | src/modules/profile/services/educations.service.ts:284-345 | exactly when a patch is refused after that, and with which error |
| `ProfileCalls.PatchedEducationExact` | src/modules/profile/services/educations.service.ts:306-370 | every column of a patched record |
| `Profile.ScoreMonotone` | src/modules/profile/services/profile.service.ts:268-345 | filling fields never lowers the score or the percentage, for any non-negative weights |
| `Profile.ScoreEnds` | src/modules/profile/services/profile.service.ts:280-342 | an empty profile scores 0 and a full one the total weight |
| `Profile.PctBounds` | src/modules/profile/services/profile.service.ts:344 | with non-negative weights totalling 100 the percentage is within 0..100, 0 for an empty and 100 for a full profile |
| `Profile.UpdateKeepsCity` | src/modules/profile/services/profile.service.ts:213-247 | an update keeps the stored city inside the stored country; a change of country alone drops a city that no longer fits |
| `Profile.TargetsStayCapped` | src/modules/profile/services/preferences.service.ts:48-64 | an addition changes a kind of targets only within the cap in force, and no other kind |
| `ProfileRuns.TargetsAlwaysCapped` | src/modules/profile/services/preferences.service.ts:33-170 | in every reachable state each kind of targets stays within the largest cap that was in force |
| `Profile.AddTargetTwice` | src/modules/profile/services/preferences.service.ts:51-64 | adding again succeeds even at the cap and changes nothing in the profile but the version |
| `Profile.RemoveUndoesAdd` | src/modules/profile/services/preferences.service.ts:60-82 | removing a newly added target restores the targets of every kind and the percentage |
| `ProfileRuns.StepInParts` | src/modules/profile/services/profile.service.ts:102-427 | every mutation checks, then writes its rows, then recalculates |
| `ProfileRuns.MutationRefreshes` | src/modules/profile/services/profile.service.ts:353-426 | after every successful mutation the stored percentage and match flag equal a fresh recomputation and the version has grown by exactly one; a failed one leaves the derived fields alone |
| `ProfileRuns.FailedMutationWritesExact` | src/modules/profile/services/profile.service.ts:249-405 | a failed mutation changes the profile if and only if its own checks pass, the weights do not total 100, and the rows it writes differ from the old ones |
| `ProfileRuns.FailuresAreAtomic` | src/modules/profile/services/profile.service.ts:401-405 | when the weights total 100 every failed mutation leaves the whole profile as it was |
| `ProfileRuns.WrittenDiffers` | src/modules/profile/services/preferences.service.ts:33-187 | creations and removals that pass their checks always change a row, an addition exactly when the target is new |
| `ProfileRuns.RefusedWeightsStillRemove` | src/modules/profile/services/preferences.service.ts:68-83 | with weights that do not total 100, removing a target fails and yet removes it |
| `ProfileRuns.RecordsStayOk` | src/modules/profile/services/educations.service.ts:126-369 | in every reachable state records have distinct (level, institution, major), ordered dates, no end date while current, a minor other than the major, and a scale for every GPA |
| `ProfileRuns.RecordsStayLimited` | src/modules/profile/services/educations.service.ts:166-176 | in every reachable state a profile has at most as many records as the largest limit that was in force |
| `ProfileRuns.CityStaysInCountry` | src/modules/profile/services/profile.service.ts:213-247 | in every reachable state a stored city lies in the stored country |
| `ProfileRuns.GpasStayExact` | src/modules/profile/services/educations.service.ts:332-369 | if every GPA set along the run rounds safely, every stored normalised GPA is the normalisation of the stored GPA |
| `Educations.CreateKeepsRecords` | src/modules/profile/services/educations.service.ts:126-213 | a create keeps the record invariants and the limit |
| `Educations.UpdateKeepsRecords` | src/modules/profile/services/educations.service.ts:261-370 | a partial update keeps the record invariants and the set of records |
| `Educations.NormalizationExact` | src/modules/profile/services/educations.service.ts:54-72 | normalising the rounded GPA gives the stored value if and only if the GPA rounds safely, a condition on the scale, the last digit and the rounding error |
| `Educations.CentsRoundSafely` | src/modules/profile/services/educations.service.ts:54-72 | a GPA with at most two decimals rounds safely on every scale |
| `Educations.CreatedExactly` | src/modules/profile/services/educations.service.ts:185-206 | a created record has the normalisation of its stored GPA if and only if its GPA rounds safely |
| `Educations.PatchedExactly` | src/modules/profile/services/educations.service.ts:332-369 | a patched record has it, whatever it had before, unless the patch sets a GPA that does not round safely |
| `Educations.NormalizationCanDrift` | src/modules/profile/services/educations.service.ts:190-206 | a GPA of 3.456 out of 5 is stored as 3.46 with the normalisation 2.76, while that of 3.46 is 2.77 |

## Left out

- Controllers, request validation, guards, configuration, logging, mail delivery and health checks: they hold no state.
- Language models, embeddings, vector search, object storage and PDF rendering: foreign calls; the compiled content is the end of the model.
- Races between the awaits of one method, cache outages, the fail-open path of the throttler, and a crash between INCR and PEXPIRE.
- Space updates and deletion with their cascades, hard deletion of users, and documents deleted later, which clears the link of a page.
- Parent links of pages can form cycles; only "another page of the same owner and space" is claimed.
- The length limit of slug and title columns.
- Invitations, and the last-login stamp.
- Tokens issued by the OAuth path: they carry no version, and the claims about versions do not cover them.
- Null children inside a document's content array, a list whose child is null, and non-array `content`, which the compiler reads as an empty list.
- Margins, colours and fonts of PDF blocks: constants of the block kind.
- Lower-casing outside ASCII, in link schemes and in text search.
- Dates are plain numbers: the truncation of date columns to days is not modelled.
- Stored special statuses, languages and test results: only whether there are any affects the score.
- Profile fields that neither affect the score nor a check, and an `experiences` value of null.
- The GPA letter table, the HTML sanitizer, seed scripts and the plain list endpoints.
- The listing that joins opportunities into the matches: the same query, pages and cache under another prefix.
- Changes of a user's role or e-mail address, which would make tokens differ that `SignedTokens` takes as equal, and blacklisted access tokens made again within one second.
