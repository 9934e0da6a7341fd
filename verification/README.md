# WooCommerce Sync Coordinator — a Dafny model

The WooCommerce Sync Coordinator is an agent that answers GitHub issues about
the Odoo/WooCommerce integration of a paint business. Each run (`process_issues`)
does the following:

- it sweeps its own repository, `jayo2005/paint-woocommerce-operations`;
- it then sweeps three watched repositories, keeping only issues that mention an
  e-commerce keyword;
- it skips every issue that already carries a comment holding the marker
  `WooCommerce Sync Coordinator` (`already_responded`);
- it answers every other open issue with a reply template, chosen by a
  first-match keyword classifier (`analyze_request`).

The project models that core as pure functions over immutable values:

- `text.dfy` (module `Text`): ASCII lower-casing and Python's substring test
  `needle in haystack`, with its positional reading.
- `classifier.dfy` (module `Classifier`): the four keyword lists, the ordered guard
  chain of `analyze_request`, and the relevance filter of the watched repositories.
- `issues.dfy` (module `Issues`): issues and comments, the marker check
  `already_responded`, and the reply each category produces. A reply is its
  heading line; the general reply also has the intro and the echoed title.
- `coordinator.dfy` (module `Coordinator`): the issue tracker, which is a map
  from repository to its issues in listing order, and the sweep.
  - The sweep is a function from one tracker state to the next.
  - Failures of the tracker are an explicit input, `Faults`: for each
    repository, the index of the issue at which its scan raises.
  - The result reports whether the sweep completed, stopped for lack of a
    token, or was aborted by a failure in the home repository. It also reports
    which watched repositories failed.

Failure handling follows the code. Only each watched repository's loop has its
own handler (lines 377-389). The home repository loop (lines 362-367) is
guarded only by the outer handler (lines 391-394). A failure there therefore
ends the whole sweep, and the watched repositories are not scanned (`Sweep`,
`HomeFailureAborts`).

## Model

All source paths are `agents/woocommerce_sync_coordinator.py`.

| member | source | states |
|---|---|---|
| Text.Lower | agents/woocommerce_sync_coordinator.py:50-51 | `str.lower()` applied character by character; what it does is stated by `Text.LowerCharMatchesTable`, `Text.LowerIdempotent` and `Text.LowerConcat` |
| Text.LowerCharMatchesTable | agents/woocommerce_sync_coordinator.py:50-51 | against the two alphabet tables: a capital becomes the small letter at the same position, every other character is kept, and no capital is left |
| Text.ContainsIff | agents/woocommerce_sync_coordinator.py:54 | the substring test used by every keyword check holds exactly when the needle occupies some contiguous block of positions in the text |
| Text.ContainsTransitive | agents/woocommerce_sync_coordinator.py:62 | a text holding a keyword also holds every substring of that keyword (the reason `async` implies `sync`) |
| Classifier.Classify | agents/woocommerce_sync_coordinator.py:48-71 | the if/elif chain of `analyze_request`, run as a first match over the ordered guard list; what it answers is stated by `Classifier.ClassifyChain` and `Classifier.GeneralIffNoKeyword` |
| Classifier.Relevant | agents/woocommerce_sync_coordinator.py:381-383 | the relevance test on the joined lower-cased text; stated by `Classifier.SyncPhrasesAreProductSync`, `Classifier.RelevanceSpansBoundary`, `Classifier.CaseInsensitive` and `Coordinator.IrrelevantWatchedUntouched` |
| Classifier.ClassifyChain | agents/woocommerce_sync_coordinator.py:48-67 | product sync iff a product keyword occurs in lower(title) + " " + lower(body); order sync iff no product keyword but an order keyword occurs; job queue and configuration likewise, each requiring that no earlier list matched |
| Classifier.GeneralIffNoKeyword | agents/woocommerce_sync_coordinator.py:69-71 | the general reply is chosen exactly when none of the fifteen classifier keywords occurs in the joined text |
| Classifier.ProductKeywordWins | agents/woocommerce_sync_coordinator.py:54-55 | first match wins: any of product, sync, variant or color decides product sync, whatever other keywords are present |
| Classifier.AsyncIsProductSync | agents/woocommerce_sync_coordinator.py:54-63 | a text containing `async` is classified as product sync and never as job queue |
| Classifier.WebhookIsProductOrOrderSync | agents/woocommerce_sync_coordinator.py:57-67 | a text containing `webhook` is classified as product sync or order sync, never as configuration |
| Classifier.DeadKeywords | agents/woocommerce_sync_coordinator.py:61-67 | removing `async` from the job-queue list and `webhook` from the configuration list changes the classification of no text |
| Classifier.CaseInsensitive | agents/woocommerce_sync_coordinator.py:50-51 | classification and relevance give the same answer on a title and body as on their lower-cased forms |
| Classifier.SyncPhrasesAreProductSync | agents/woocommerce_sync_coordinator.py:381-383 | an issue mentioning `shop sync` or `product sync` passes the relevance filter and is classified as product sync |
| Classifier.RelevanceSpansBoundary | agents/woocommerce_sync_coordinator.py:381-383 | title "Our online" with body "store is down" passes the relevance filter through `online store`, although neither the title nor the body holds the phrase |
| Classifier.WebhookTitleIsOrderSync | agents/woocommerce_sync_coordinator.py:54-59 | a title holding `webhook` but none of the letters r, y, v and c, with an empty body, is classified as order sync |
| Classifier.SetupWebhookIsOrderSync | agents/woocommerce_sync_coordinator.py:57-67 | "How to setup webhook" matches the configuration guard, yet is classified as order sync, because the order guard is tried first; `setup` and `webhook`, two configuration keywords, both occur |
| Classifier.ProductVariantIsProductSync | agents/woocommerce_sync_coordinator.py:53-55 | "Product variant sync fails for colors" is classified as product sync |
| Issues.AlreadyResponded | agents/woocommerce_sync_coordinator.py:396-401 | the loop returns true iff some comment body contains the marker; when it returns false, no comment does |
| Issues.RespondedIgnoresOrder | agents/woocommerce_sync_coordinator.py:396-401 | two comment lists with the same comments, in any order, give the same answer |
| Issues.RespondedPersists | agents/woocommerce_sync_coordinator.py:396-401 | once an issue counts as answered, appending more comments never undoes that |
| Issues.Reply | agents/woocommerce_sync_coordinator.py:73-310 | the comment posted for an issue: the template of its category; stated by `Issues.ReplyCarriesMarker`, `Issues.ReplyMarksAnswered` and `Issues.ReplyRevealsCategory` |
| Issues.ReplyCarriesMarker | agents/woocommerce_sync_coordinator.py:73-306 | every one of the five reply templates contains the marker |
| Issues.ReplyMarksAnswered | agents/woocommerce_sync_coordinator.py:363-366 | after a reply is posted, the issue counts as already responded |
| Issues.ReplyRevealsCategory | agents/woocommerce_sync_coordinator.py:73-310 | two equal replies answer the same category: each category has its own heading |
| Coordinator.ScanRepo | agents/woocommerce_sync_coordinator.py:363-367 | the issue loop of one repository keeps the number of issues; it visits the issues before the failing one (all of them when nothing fails) and leaves the rest as they were; it reports a failure exactly when one occurs |
| Coordinator.ScanWatched | agents/woocommerce_sync_coordinator.py:376-389 | the loop over the watched repositories, each inside its own handler; stated by `Coordinator.ScanWatchedIsolates` |
| Coordinator.ScanWatchedIsolates | agents/woocommerce_sync_coordinator.py:376-389 | in the watched loop, each repository ends up as its own scan leaves it, whatever the others met; each failure is reported at its own position; no repository appears or disappears |
| Coordinator.Sweep | agents/woocommerce_sync_coordinator.py:351-394 | `process_issues` as a map from one tracker state to the next; stated by `Coordinator.SweepCompleted`, `Coordinator.HomeFailureAborts`, `Coordinator.SweepWithoutToken`, `Coordinator.SweepOnlyAppends` and `Coordinator.SweepIdempotent` |
| Coordinator.SweepCompleted | agents/woocommerce_sync_coordinator.py:358-389 | with a token and a home scan that does not raise, the sweep completes; every repository equals its own swept form; exactly the watched repositories whose scan raised are reported as failed |
| Coordinator.HomeFailureAborts | agents/woocommerce_sync_coordinator.py:353-394 | a failure in the home loop reaches the outer handler: the watched repositories are untouched and replies already posted at home stay |
| Coordinator.SweepWithoutToken | agents/woocommerce_sync_coordinator.py:354-356 | without a token the tracker is unchanged |
| Coordinator.Visit | agents/woocommerce_sync_coordinator.py:363-366 | one iteration of an issue loop; stated by `Coordinator.VisitKeptOrAnswered` and `Coordinator.VisitIdempotent` |
| Coordinator.VisitKeptOrAnswered | agents/woocommerce_sync_coordinator.py:363-366 | one visit leaves the issue as it was or appends exactly its reply; it changes the issue iff the issue qualifies |
| Coordinator.SweepOnlyAppends | agents/woocommerce_sync_coordinator.py:351-394 | on every outcome, no repository or issue appears or disappears, and each issue is kept or gains exactly the reply computed from it |
| Coordinator.AnsweredIssuesAreMarked | agents/woocommerce_sync_coordinator.py:363-366 | every issue a sweep changed carries a comment with the marker |
| Coordinator.IrrelevantWatchedUntouched | agents/woocommerce_sync_coordinator.py:379-387 | an issue of a watched repository that fails the relevance filter is never commented on, whatever it would classify as |
| Coordinator.ChangedOnlyIfPending | agents/woocommerce_sync_coordinator.py:361-394 | whatever the token and the faults, a sweep changes an issue only if it was pending: open, relevant when its repository is watched, and without a marked comment |
| Coordinator.AnsweredUntouched | agents/woocommerce_sync_coordinator.py:363-387 | an issue that already carries a comment with the marker is identical after any sweep, whatever its token and faults |
| Coordinator.FaultFreeSweepAnswersPending | agents/woocommerce_sync_coordinator.py:361-387 | with a token and no failures, the sweep completes and changes exactly the pending issues: open home issues, and open relevant watched issues, with no marked comment |
| Coordinator.SweepIdempotent | agents/woocommerce_sync_coordinator.py:351-401 | a second sweep with no changes in between and the same failures posts nothing and reports the same outcome |
| Coordinator.ScanRepoIdempotent | agents/woocommerce_sync_coordinator.py:363-367 | scanning a repository a second time with the same failure changes nothing |
| Coordinator.VisitIdempotent | agents/woocommerce_sync_coordinator.py:363-366 | visiting an issue twice is the same as visiting it once |
| Coordinator.SettledIsFixpoint | agents/woocommerce_sync_coordinator.py:351-394 | when no issue anywhere is pending, no sweep changes anything, whatever its token or failures |
| Coordinator.CleanSweepSettles | agents/woocommerce_sync_coordinator.py:361-389 | after a sweep that completed with no watched failure, no issue is pending |

## Left out

- The GitHub client (`Github`, `get_repo`, `get_issues`, `get_comments`, `create_comment`): network I/O. The tracker value stands in for it, and the `Faults` map says where each repository's calls raise.
- Paging, and a scan that fails after posting a reply but before moving on: a fault at index `i` means that issues `0..i-1` were visited and nothing was posted to issue `i` or later.
- Reading `GITHUB_TOKEN` and the fallback of `CROSS_REPO_TOKEN` to it (lines 23-24): the token is a string parameter, and the empty string stands for unset or empty. The secondary token plays no part beyond the faults it may cause.
- Logging and traceback formatting (lines 355, 367, 387, 389, 392-394): their only effect is the log output.
- Issues.Reply, Issues.ReplyText: template prose is not modelled. Each reply is modelled by its heading line, which holds the marker and names the category. The general reply also keeps its intro line and the echoed title (lines 306-310). The rest of each template is fixed text.
- `module_info`, `business_context` and `module_path` (lines 25-46): static data. `module_info` and `business_context` are never read; `module_path` is read only by template prose (line 89).
- Text.Lower, Text.LowerChar: only A-Z are mapped. Python's `str.lower()` also maps non-ASCII characters, and some of them become ASCII letters. U+212A KELVIN SIGN becomes `k`, so "WEBHOO\u212A" holds `webhook` in the code but not in the model. U+0130 becomes `i` followed by a combining dot, which also changes the length. Such characters can change both the classification and the relevance test; the model keeps every non-ASCII character as it is.
- An issue with no body makes `.lower()` raise. The model's bodies are always strings. Such an issue can be modelled as a fault at its index, which stops the repository's scan as it would in the code.
- Per-issue failure isolation: the code has none, so none is modelled.
- Issue numbers appear only in log lines. They are kept in `Issue` but affect nothing.
- `main` (lines 403-410): it only builds the agent and calls `process_issues`.
