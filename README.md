# Association finance app — a verified model of its core logic

This project models, in Dafny, the small self-contained pieces of logic of a
Next.js/Supabase finance application for student associations, and proves
what they promise:

- **Category forest** (`src/lib/data-structures.ts`, `category_tree.dfy`,
  `category_reach.dfy`). `buildCategoryTree` fills a map id → node in a first
  loop, then links each category under its parent in a second loop. The
  model is imperative: a map `id → Node` stands for the shared JavaScript node
  objects. Each loop is proved against a specification function. The lemmas
  cover four things:
  - which ids end up among the roots and in each node's children, in input order;
  - when depths are true tree depths;
  - a concrete input where they are not;
  - with unique ids and no cycle, every category is reached exactly once
    from the roots.
- **Settings list** (`src/components/settings/category-list.tsx`,
  `category_list.dfy`). `flattenTree` is a pure pre-order flattening with
  depths. The drag-and-drop handler is a class holding the list on screen,
  the rank updates sent to the server and the error toasts shown. Its
  `arrayMove` follows dnd-kit's documented semantics: remove the item at the
  old index, insert it at the new one. The ranks sent are positions in the
  whole flattened list, not positions among siblings: the handler numbers
  `newItems` from 0.
- **Organisation creation** (`src/app/onboarding/actions.ts`,
  `onboarding_actions.dfy`). The name becomes a URL slug through five string
  transforms. The slug alphabet, the absence of edge and double dashes, the
  fixed points and idempotence are proved. Then the organisation is inserted,
  then the admin membership, as a method over the two tables.
- **Route gate** (`src/middleware.ts`, `middleware.dfy`). This is a pure
  decision: pass, redirect to `/onboarding`, or redirect to `/login` with
  `redirectTo`. The `/auth` prefix test ignores the route being tested, so
  `/authors` is public.
- **Payment webhook** (`src/app/api/webhooks/stripe/route.ts`,
  `stripe_webhook.dfy`). The `POST` handler is a method over a class holding
  the `transactions` rows. It runs its guards in order and inserts one
  pending income row. Whatever the look-up and a concurrent delivery do, no
  Stripe event is ever stored twice.
- **Receipt scan** (`src/app/actions/scan-receipt.ts`, `scan_receipt.dfy`).
  The guards run in order: authentication, rate limit, file presence, type,
  then size. The rate-limit token is consumed before the file is examined.
  The method also models the storage path and turns the model's reply into
  the result, with `?? null` defaulting.
- **Navigation links** (`src/components/dashboard/nav-links.tsx`,
  `nav_links.dfy`). The four section links, and an "active" predicate of
  which at most one link satisfies.
- **Onboarding screen** (`src/app/onboarding/onboarding-client.tsx`,
  `onboarding_client.dfy`). `getOrg` collapses a to-one join that arrives as
  an object, an array or null. It also derives the first and the listed
  organisations.

The external services are inputs to the model:

- the Supabase session, tables and storage;
- Stripe's signature check;
- the Upstash rate limiter;
- the OpenAI vision call;
- the clock.

What the code does to those services is recorded in class fields: the
rate-limit calls, the stored files, the inserted rows.

## Model

| member | source | states |
|---|---|---|
| CategoryTree.InitMap | src/lib/data-structures.ts:12-14 | every input id gets a node with empty children and depth 0, holding a category of that id, and there are no other keys |
| CategoryTree.InitMapUnique | src/lib/data-structures.ts:12-14 | with unique ids, the node of each id holds exactly that input category |
| CategoryTree.InitNodes | src/lib/data-structures.ts:12-14 | the first loop builds exactly the initial map |
| CategoryTree.ParentKey | src/lib/data-structures.ts:21 | a category is linked under a parent exactly when its `parent_id` is non-null, non-empty and an id of the input |
| CategoryTree.Link | src/lib/data-structures.ts:17-30 | one linking step never adds or removes a node |
| CategoryTree.LinkDepth | src/lib/data-structures.ts:24 | a linking step sets only the linked node's depth, to its parent's current depth plus one, and only when the parent is present |
| CategoryTree.LinkNodes | src/lib/data-structures.ts:17-30 | the second loop computes the fold of the linking step over the input list |
| CategoryTree.BuildCategoryTree | src/lib/data-structures.ts:7-32 | the two loops together compute the forest determined by the input |
| CategoryTree.UnderFromList | src/lib/data-structures.ts:17-30 | only ids of the input are placed among the roots or the children |
| CategoryTree.UnderExact | src/lib/data-structures.ts:21-28 | with unique ids, a category is placed under a parent key exactly when its parent key is that key, and nothing is placed twice |
| CategoryTree.UnderSnoc | src/lib/data-structures.ts:17-30 | handling one more category appends its id to the placement under its parent key and leaves every other placement unchanged |
| CategoryTree.LinkedShape | src/lib/data-structures.ts:17-30 | after k steps, the roots and each node's children are the ids of the first k categories with that parent key, in input order, and the stored categories are untouched |
| CategoryTree.Built | src/lib/data-structures.ts:7-32 | the forest `buildCategoryTree` builds has exactly the input ids as nodes |
| CategoryTree.BuiltShape | src/lib/data-structures.ts:7-32 | the built forest has one node per input id; its roots are the parentless categories in input order; each node's children are its children in input order |
| CategoryTree.Placement | src/lib/data-structures.ts:21-28 | a category whose parent is present is in that parent's children and never among the roots; one whose parent is null or missing is a root |
| CategoryTree.TrueDepthOfChild | src/lib/data-structures.ts:24 | when parents come first, a child's tree depth is its parent's plus one |
| CategoryTree.LinkChild | src/lib/data-structures.ts:21-25 | linking under a present parent sets the child's depth to the parent's plus one, appends the child to the parent's children and changes no other node nor the roots |
| CategoryTree.LinkRoot | src/lib/data-structures.ts:26-28 | linking a category without a present parent only appends it to the roots |
| CategoryTree.LinkedThree | src/lib/data-structures.ts:17 | the second pass over three categories links them in list order |
| CategoryTree.DepthStepAt | src/lib/data-structures.ts:24 | the depth step seen from one category: the linked one gets its tree depth, earlier ones keep theirs, later ones stay at 0 |
| CategoryTree.DepthStep | src/lib/data-structures.ts:24 | with parents first, one linking step gives the linked category its tree depth and leaves the later ones at 0 |
| CategoryTree.LinkedDepth | src/lib/data-structures.ts:17-30 | with unique ids and parents first, after k steps the first k categories carry their tree depth and the others 0 |
| CategoryTree.BuiltDepth | src/lib/data-structures.ts:24 | with unique ids and every parent before its children, each node's depth is its depth in the tree |
| CategoryTree.ChainParentsFirst | src/lib/data-structures.ts:24 | a chain a ← b ← c listed parents first gives c depth 2 |
| CategoryTree.ChainChildrenFirst | src/lib/data-structures.ts:17-30 | the same chain listed children first links correctly (roots [a], a → [b], b → [c]) but leaves c at depth 1: depth depends on input order |
| CategoryTree.InitThree | src/lib/data-structures.ts:12-14 | the first pass over three categories gives each of their ids a node with no children and depth 0 |
| CategoryTree.ParentsFirstLinks | src/lib/data-structures.ts:21-25 | from fresh nodes, linking a, then b under a, then c under b leaves c at depth 2 |
| CategoryTree.ChildrenFirstLinks | src/lib/data-structures.ts:17-30 | from fresh nodes, linking c under b, then b under a, then a as a root gives roots [a], a → [b], b → [c] and c depth 1 |
| CategoryReach.Par | src/lib/data-structures.ts:21 | a node's parent, when it has one, is a node of the forest |
| CategoryReach.BuiltCategory | src/lib/data-structures.ts:12-14 | with unique ids, each node holds the input category of its id, and its parent is that category's parent key |
| CategoryReach.BuiltRanked | src/lib/data-structures.ts:7-32 | an acyclicity ranking of the input ranks every node of the built forest, each parent below its child |
| CategoryReach.BuiltChildAt | src/lib/data-structures.ts:21-25 | with unique ids, c is among x's children exactly when c is a node whose parent is x |
| CategoryReach.BuiltNodeAt | src/lib/data-structures.ts:21-25 | with unique ids, each node holds its own id and lists no child twice |
| CategoryReach.BuiltChildLinks | src/lib/data-structures.ts:21-25 | with unique ids, for every node x and id c, c is among x's children exactly when c is a node whose parent is x |
| CategoryReach.BuiltChildren | src/lib/data-structures.ts:21-25 | with unique ids, every node's children are exactly the nodes whose parent it is, each once |
| CategoryReach.BuiltRoots | src/lib/data-structures.ts:26-28 | with unique ids, the roots are exactly the nodes without a parent in the list, each once |
| CategoryReach.AncRank | src/lib/data-structures.ts:21-25 | an ancestor is a node and is ranked no higher than its descendant |
| CategoryReach.AncUp | src/lib/data-structures.ts:21-25 | the parent of an ancestor is an ancestor |
| CategoryReach.ChildOnPath | src/lib/data-structures.ts:21-25 | below a strict ancestor there is a child of it on the way down to the descendant |
| CategoryReach.Chain | src/lib/data-structures.ts:21-25 | two ancestors of one node are ancestor one of the other |
| CategoryReach.Siblings | src/lib/data-structures.ts:21-25 | a node is not a strict ancestor of another node with the same parent |
| CategoryReach.Top | src/lib/data-structures.ts:26-28 | every node lies below some root |
| CategoryReach.VisitSource | src/lib/data-structures.ts:17-30 | every id the walk from a list meets is a node below one of the ids of the list |
| CategoryReach.VisitReaches | src/lib/data-structures.ts:17-30 | every node below an id of the list is met by the walk from it |
| CategoryReach.VisitNoDup | src/lib/data-structures.ts:17-30 | walking distinct siblings meets no node twice |
| CategoryReach.FlattenObjects | src/components/settings/category-list.tsx:44-50 | flattening the object forest lists the ids in the order of the walk |
| CategoryReach.ReachedExactlyOnce | src/lib/data-structures.ts:7-32 | with unique ids and an acyclic parent relation, the walk from the returned roots meets every input id exactly once and nothing else, and `flattenTree` of the returned forest lists exactly those ids in that order |
| CategoryList.Flatten | src/components/settings/category-list.tsx:44-50 | `flattenTree`: at least one entry per top-level node, and a non-empty forest starts with its first node at the given depth |
| CategoryList.Ids | src/components/settings/category-list.tsx:80-83 | the ids of a list, position by position |
| CategoryList.IdsFlattenCons | src/components/settings/category-list.tsx:45-49 | the ids of a flattened forest are the first node's id, then its subtree's ids, then the rest's |
| CategoryList.FlattenLength | src/components/settings/category-list.tsx:45-49 | the flattened list has exactly one entry per node of the forest |
| CategoryList.FlattenAppend | src/components/settings/category-list.tsx:45-48 | flattening a forest flattens its trees one after the other, in input order |
| CategoryList.FlattenIsOutline | src/components/settings/category-list.tsx:44-49 | the flattened list starts at the given depth, never goes above it, and goes at most one level deeper from one entry to the next |
| CategoryList.TopLevelAtDepth | src/components/settings/category-list.tsx:44-50 | the entries at the starting depth are exactly the top-level nodes, in input order, each with that depth: every subtree sits strictly deeper |
| CategoryList.ChildFollows | src/components/settings/category-list.tsx:46-47 | an entry with children is directly followed by its first child, at the entry's depth plus one |
| CategoryList.ArrayMove | src/components/settings/category-list.tsx:75 | the moved list has the same length and holds the dragged item at the target position |
| CategoryList.MovePermutes | src/components/settings/category-list.tsx:75 | a move only permutes the list |
| CategoryList.MoveBack | src/components/settings/category-list.tsx:75 | moving the item back to its old position restores the list |
| CategoryList.MoveShifts | src/components/settings/category-list.tsx:75 | items between the two positions shift by one towards the old position; all others keep their place |
| CategoryList.RankUpdates | src/components/settings/category-list.tsx:80-83 | one update per item, carrying the item's id and its position as rank; ranks strictly increase, so they are 0..n-1 with no gap or duplicate |
| CategoryList.FindIndex | src/components/settings/category-list.tsx:71-72 | the first position holding the id |
| CategoryList.CategoryBoard.constructor | src/components/settings/category-list.tsx:55 | the list on screen starts as the flattened initial forest, with nothing sent and no toast |
| CategoryList.CategoryBoard.HandleDragEnd | src/components/settings/category-list.tsx:67-90 | without a target, or on itself, nothing changes and nothing is sent; otherwise the list is moved, the new positions are sent as ranks, and a failing server adds the error toast while the new order stays; the items (and their parent ids) are only permuted |
| CategoryList.IdsMove | src/components/settings/category-list.tsx:75 | moving the items moves their ids in the same way |
| CategoryList.DragMovesIds | src/components/settings/category-list.tsx:71-75 | after a move the dragged id sits at the target's old position, the ids are moved the same way, and the multiset of ids is unchanged |
| OrgSlug.Slugify | src/app/onboarding/actions.ts:25-30 | the five steps in source order; the slug is never longer than the name |
| OrgSlug.Lower | src/app/onboarding/actions.ts:26 | `toLowerCase` over ASCII letters keeps the length |
| OrgSlug.Trim | src/app/onboarding/actions.ts:27 | `trim` never lengthens the string and leaves no trailing whitespace |
| OrgSlug.StripSpecial | src/app/onboarding/actions.ts:28 | `replace(/[^\w\s-]/g, "")` never lengthens the string and leaves only word characters, whitespace and '-' |
| OrgSlug.Collapse | src/app/onboarding/actions.ts:29 | `replace(/[\s_-]+/g, "-")` never lengthens the string |
| OrgSlug.TrimDashes | src/app/onboarding/actions.ts:30 | `replace(/^-+\|-+$/g, "")` never lengthens the string |
| OrgSlug.SkipSeparators | src/app/onboarding/actions.ts:29 | skipping a run of separators leaves a shorter string that starts with a non-separator |
| OrgSlug.LowerHasNoUpper | src/app/onboarding/actions.ts:26 | lower-casing keeps the length and leaves no upper-case letter |
| OrgSlug.LowerAt | src/app/onboarding/actions.ts:26 | lower-casing maps each character on its own |
| OrgSlug.TrimStartSuffix | src/app/onboarding/actions.ts:27 | trimming the start leaves a suffix |
| OrgSlug.TrimEndPrefix | src/app/onboarding/actions.ts:27 | trimming the end leaves a prefix |
| OrgSlug.TrimKeepsChars | src/app/onboarding/actions.ts:27 | trimming adds no character |
| OrgSlug.StripSpecialKeeps | src/app/onboarding/actions.ts:28 | after stripping, only lower-case letters, digits, '_', whitespace and '-' remain |
| OrgSlug.StripSpecialKeepsKept | src/app/onboarding/actions.ts:28 | stripping leaves a string of word characters, whitespace and dashes unchanged |
| OrgSlug.StripSpecialDropsAll | src/app/onboarding/actions.ts:28 | a string of characters outside `\w`, `\s` and '-' is emptied |
| OrgSlug.SpecialOnlySlug | src/app/onboarding/actions.ts:25-30 | every name made only of characters outside `\w`, `\s` and '-' gets the empty slug |
| OrgSlug.SkipSeparatorsSuffix | src/app/onboarding/actions.ts:29 | skipping separators leaves a suffix |
| OrgSlug.CollapseHead | src/app/onboarding/actions.ts:29 | a collapsed string starts with '-' exactly when the input starts with a separator |
| OrgSlug.CollapseShape | src/app/onboarding/actions.ts:29 | after collapsing, only letters, digits and '-' remain, and no two dashes are adjacent |
| OrgSlug.CollapseWord | src/app/onboarding/actions.ts:29 | a run without separators passes through collapsing unchanged |
| OrgSlug.CollapseSingleSeparator | src/app/onboarding/actions.ts:29 | a single separator before a non-separator becomes one '-' |
| OrgSlug.CollapseThreeWords | src/app/onboarding/actions.ts:29 | three separator-free words joined by single spaces come out joined by single dashes |
| OrgSlug.TrimLeadingDashesSuffix | src/app/onboarding/actions.ts:30 | removing leading dashes leaves a suffix not starting with '-' |
| OrgSlug.TrimTrailingDashesPrefix | src/app/onboarding/actions.ts:30 | removing trailing dashes leaves a prefix not ending with '-' |
| OrgSlug.TrimDashesShape | src/app/onboarding/actions.ts:30 | trimming the dashes of a collapsed string gives a well-formed slug |
| OrgSlug.SlugifyIsSlug | src/app/onboarding/actions.ts:25-30 | every slug produced has only lower-case ASCII letters, digits and '-', no '-' at either end, and no two adjacent dashes |
| OrgSlug.LowerFixes | src/app/onboarding/actions.ts:26 | lower-casing leaves a string without upper-case letters unchanged |
| OrgSlug.StripSpecialFixes | src/app/onboarding/actions.ts:28 | stripping leaves a string of slug characters unchanged |
| OrgSlug.CollapseFixes | src/app/onboarding/actions.ts:29 | collapsing leaves a string of slug characters without double dashes unchanged |
| OrgSlug.SlugifyFixesSlugs | src/app/onboarding/actions.ts:25-30 | every step of the pipeline leaves a slug unchanged, so slugify does |
| OrgSlug.SlugFixpointIff | src/app/onboarding/actions.ts:25-30 | slugify leaves a string unchanged exactly when it is already a slug |
| OrgSlug.SlugifyIdempotent | src/app/onboarding/actions.ts:25-30 | slugifying a slug returns the same slug |
| Onboarding.ExampleSlug | src/app/onboarding/actions.ts:24 | "BDE ESIEE 2026" becomes "bde-esiee-2026" |
| Onboarding.SpecialCharactersOnlyGiveEmptySlug | src/app/onboarding/actions.ts:19-30 | every non-empty name made only of special characters passes the empty-name guard: the organisation is inserted with the empty slug and the action redirects to "//budget" |
| Onboarding.Directory.constructor | src/app/onboarding/actions.ts:33-56 | both tables start empty |
| Onboarding.Directory.CreateOrganization | src/app/onboarding/actions.ts:7-66 | no user redirects to /login and an empty name returns, both without insert; a refused organisation insert throws before any member insert; otherwise the organisation with the slug of its name is inserted, then the admin membership, or the member error is thrown; success redirects to "/" + slug + "/budget"; every membership points at an existing organisation |
| RouteGate.Gate | src/middleware.ts:7-32 | the gate's decision: a login redirect only for an anonymous user on a non-public path, carrying that path; an onboarding redirect only for a logged-in user on a public path |
| RouteGate.SomeRouteMatches | src/middleware.ts:14 | the `some` test holds for a listed path, and for any path starting with "/auth" when the list is non-empty |
| RouteGate.IsPublic | src/middleware.ts:5-14 | the four public routes and every path starting with "/auth" are public |
| RouteGate.SomeRouteMatchesIff | src/middleware.ts:14 | the `some` test holds iff the path is in the list or, the list being non-empty, starts with "/auth", whatever the element |
| RouteGate.PublicIff | src/middleware.ts:5-14 | a path is public iff it is '/login', '/signup', '/', '/auth' or starts with '/auth' |
| RouteGate.AuthorsIsPublic | src/middleware.ts:14 | '/authors' is public and passes without a session |
| RouteGate.OnboardingRedirectIff | src/middleware.ts:16-18 | the gate redirects to onboarding exactly for a logged-in user on '/login' or '/signup' |
| RouteGate.LoggedInOtherwisePasses | src/middleware.ts:14-31 | every other request of a logged-in user passes unchanged |
| RouteGate.AnonymousIff | src/middleware.ts:14-27 | an anonymous user is redirected to login with the original path exactly on non-public paths, and otherwise passes |
| RouteGate.LoginRedirectCarriesPath | src/middleware.ts:23-27 | a login redirect is only for anonymous users and always carries the requested path |
| NavLinks.Links | src/components/dashboard/nav-links.tsx:11-16 | four links, audit, closures, members, settings in that order, each href "/" + slug + "/" + section |
| NavLinks.IsActive | src/components/dashboard/nav-links.tsx:24 | an active href is a prefix of the pathname |
| NavLinks.ActiveAgreesAt | src/components/dashboard/nav-links.tsx:24 | an active href agrees with the pathname at every position of the href |
| NavLinks.DifferingHrefsExclusive | src/components/dashboard/nav-links.tsx:24 | two hrefs that differ at a shared position are never both active |
| NavLinks.AtMostOneActive | src/components/dashboard/nav-links.tsx:11-24 | for any pathname, no two of the four links are active |
| NavLinks.SiblingPrefixNotActive | src/components/dashboard/nav-links.tsx:24 | '/x/audit-log' does not activate '/x/audit', while '/x/audit/2026' does |
| OnboardingClient.GetOrg | src/app/onboarding/onboarding-client.tsx:17-20 | null gives nothing; a single object gives itself; an array gives its first element, and nothing when empty |
| OnboardingClient.FirstOrg | src/app/onboarding/onboarding-client.tsx:29 | nothing without memberships, else `getOrg` of the first membership |
| OnboardingClient.GetOrgShapesAgree | src/app/onboarding/onboarding-client.tsx:17-20 | an object and an array headed by it give the same organisation; null and an empty array both give none |
| OnboardingClient.WithOrg | src/app/onboarding/onboarding-client.tsx:136-138 | the buttons number at most the memberships, and a first membership with an organisation gives the first button |
| OnboardingClient.ListedOrgs | src/app/onboarding/onboarding-client.tsx:129-138 | nothing is listed with at most one membership; with more, one button per membership with an organisation |
| OnboardingClient.WithOrgAppend | src/app/onboarding/onboarding-client.tsx:136-138 | the listing keeps membership order |
| OnboardingClient.WithOrgExact | src/app/onboarding/onboarding-client.tsx:136-138 | one entry per membership whose `getOrg` yields an organisation, and each entry is one of those |
| OnboardingClient.FirstOrgIsFirstListed | src/app/onboarding/onboarding-client.tsx:29-138 | with more than one membership, the banner organisation, when there is one, is the first one listed; with a single membership nothing is listed |
| StripeWebhook.MetaValue | src/app/api/webhooks/stripe/route.ts:30-32 | a metadata value is present iff the key is there with a non-empty value, and then it is that value |
| StripeWebhook.StripeRow | src/app/api/webhooks/stripe/route.ts:59-86 | the inserted row is income of the organisation, of amount `amount_total` or 0, with status and classification "pending", category defaulting to "Autre", and description defaulting to "Paiement Stripe" followed by " (email)" or " (inconnu)"; it carries the event id |
| StripeWebhook.AtMostOneRowPerEvent | src/app/api/webhooks/stripe/route.ts:62-93 | under the unique constraint an event id is stored at most once, and exactly once when present |
| StripeWebhook.Transactions.constructor | src/app/api/webhooks/stripe/route.ts:76-86 | the table starts empty and satisfies the unique constraint |
| StripeWebhook.Transactions.Insert | src/app/api/webhooks/stripe/route.ts:76-93 | an already-stored event id is refused with 23505; any other fault is refused as given; otherwise the row is appended; the unique constraint is kept |
| StripeWebhook.Transactions.Post | src/app/api/webhooks/stripe/route.ts:8-102 | a bad signature gives 400 and no insert; another event type, a missing or unknown `org_id`, or an event the look-up finds gives 200 and no insert, whatever a concurrent delivery does; otherwise, after a possible concurrent insert, an event already stored gives 200 with no second row, a 23505 fault gives 200 and any other fault 500 "Database Error", both with no row, and no fault gives 200 with exactly the defaulted row appended; only these rows are ever added |
| StripeWebhook.HasEventGrows | src/app/api/webhooks/stripe/route.ts:76-86 | inserting rows never loses a stored event |
| StripeWebhook.DeliverTwice | src/app/api/webhooks/stripe/route.ts:63-96 | delivering the same event twice, however the look-ups and a concurrent insert go, leaves at most one row for it; when the first delivery is a new checkout event of a known organisation, both answer 200 and the event has exactly one row |
| StripeWebhook.FoundEventGives200 | src/app/api/webhooks/stripe/route.ts:62-71 | an event the look-up finds is answered 200 and nothing is stored, whatever a concurrent delivery does |
| StripeWebhook.OtherFaultGives500 | src/app/api/webhooks/stripe/route.ts:88-96 | for a fresh checkout event of a known organisation, an insert fault other than 23505 answers 500 "Database Error" and stores nothing |
| StripeWebhook.ConcurrentDeliveryGives200 | src/app/api/webhooks/stripe/route.ts:88-93 | when a concurrent delivery stores the event between the look-up and the insert, the insert is refused on the unique constraint, the answer is 200, and only the concurrent row is stored |
| Decimal.NatToString | src/app/actions/scan-receipt.ts:43 | the decimal form of a timestamp is non-empty, all digits, without a leading zero |
| Decimal.ParsePrinted | src/app/actions/scan-receipt.ts:43 | reading the printed timestamp back gives the timestamp |
| ScanReceipt.Message | src/app/actions/scan-receipt.ts:19-105 | every error text is non-empty; the upload and reading errors are their fixed prefix followed by the underlying message |
| ScanReceipt.ReceiptPath | src/app/actions/scan-receipt.ts:43 | the path starts with the user id and '/', and ends with the file name |
| ScanReceipt.ResetInMinutes | src/app/actions/scan-receipt.ts:24 | the wait is the least whole number of minutes covering reset − now, i.e. the ceiling |
| ScanReceipt.CheckFile | src/app/actions/scan-receipt.ts:29-40 | a missing file fails first, then a type outside the four images, then a size above 5 MiB; a file passes iff present, allowed and at most 5 MiB |
| ScanReceipt.FirstFailure | src/app/actions/scan-receipt.ts:17-40 | no user fails first, then a refused rate limit with its limit and wait, then the file checks |
| ScanReceipt.Field | src/app/actions/scan-receipt.ts:95-98 | a field is null iff it is missing or null, and otherwise is passed through |
| ScanReceipt.FromReply | src/app/actions/scan-receipt.ts:88-107 | a thrown call or parse error gives "Lecture impossible: …", an empty reply gives the empty-reply error, an object gives a success with the upload path, the remaining count and each absent field as null |
| ScanReceipt.ReceiptServices.constructor | src/app/actions/scan-receipt.ts:22-46 | no rate-limit call and no stored file yet |
| ScanReceipt.ReceiptServices.ScanReceipt | src/app/actions/scan-receipt.ts:14-108 | without a user nothing is consulted; otherwise one rate-limit token is consumed before any file check; the first failing guard decides the error and nothing is stored; a passing file is stored at user/now-name unless the upload fails; the result then follows the signed URL and the model's reply |
| ScanReceipt.SizeCapBoundary | src/app/actions/scan-receipt.ts:37-40 | exactly 5·1024·1024 bytes passes; one byte more is too large |
| ScanReceipt.OnlyImagesAccepted | src/app/actions/scan-receipt.ts:32-35 | a PDF is refused whatever its size; a HEIC image within the cap passes |
| ScanReceipt.PathInUserFolder | src/app/actions/scan-receipt.ts:43 | the stored path starts with the user id and '/', and when the id holds no '/', its first '/' is right after the id |

## Left out

- Supabase, Stripe, Upstash, OpenAI and the storage bucket are not modelled. Their answers are inputs of the methods, and what the code does to them is kept in fields. These answers are inputs:
  - the session user;
  - the rate-limit reply;
  - the upload error;
  - the signed URL;
  - the model's reply;
  - the insert refusals;
  - a concurrent webhook delivery.
- Stripe's signature verification (`constructEvent`) is a foreign cryptographic call, so only its verified/rejected outcome is an input.
- `JSON.parse` and the model's prompt are not modelled. The parsed object is an input, with its values passed through untyped.
- Logging (`console.*`), `revalidatePath`, toasts other than the reorder error, React state other than the sortable list, and all rendering are left out.
- The middleware's session refresh (`updateSession`) and its static-asset `matcher` are plumbing. Only the user/no-user outcome of the refresh is used.
- The clock (`Date.now()`, `new Date().toISOString()`) is an input. `scanReceipt` reads it once on each path it takes.
- OrgSlug.Lower: JavaScript's `toLowerCase` is Unicode-aware. The model lowers ASCII letters only. Non-ASCII capitals are kept and then removed by the stripping step, which keeps only ASCII word characters, as the source's regex without the `u` flag does. Two capitals differ: in the source U+0130 'İ' lower-cases to "i" plus a combining dot, and U+212A KELVIN SIGN to 'k'. So the source turns "İstanbul" into "istanbul", while the model gives "stanbul".
- OnboardingClient.GetOrg: JavaScript's `null` and `undefined` are both `None`. Every caller only tests truthiness.
- CategoryList.CategoryBoard.HandleDragEnd: it requires the dragged and target ids to be in the list, because dnd-kit only reports registered ids. The `findIndex` result −1, and `arrayMove` with a negative index, are therefore not modelled.
- CategoryList.Flatten: a missing `children` array is modelled as an empty one.
- Object identity in `buildCategoryTree` is modelled by ids: each node object is the map entry of its id, and a children list holds ids.
- Input with duplicate ids is modelled by the building code, and only the shape lemmas assume unique ids. The last category with an id owns the node, and each occurrence is linked.
- CategoryReach.ReachedExactlyOnce: acyclicity is stated as a ranking of the ids, each parent ranked below its child. Nothing is proved about inputs with a cycle, whose nodes the source leaves unreachable.
- StripeWebhook.Transactions.Post: an error of the organisation look-up is not a separate input. It ends exactly like an unknown `org_id`: status 200 and no insert.
