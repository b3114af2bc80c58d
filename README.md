# Page restriction and password gate

A model, in Dafny, of the access gate of a Notion-backed content site. Two
pieces decide whether a visitor sees a page:

- **The page's lock decision** (`components/NotionPage.tsx`, module
  `NotionPage`). The page takes the key of the first entry of the record
  map's block table and that block's `parent_id`, removes every hyphen from
  both, and locks the page when either is one of the two ids in
  `LOCKED_PAGE_IDS`. The same file chooses what the page returns: a loading
  placeholder on a fallback route, the not-found page on an error or a
  missing site or block, and otherwise the page content, wrapped in the
  password gate when the page is locked. `isBlogPost` and `isLiteMode` are
  the two flags of the page content that the model keeps.
- **The password gate** (`components/PasswordGate.tsx`, module `Gate`). A
  component with three state cells (`input`, `isUnlocked`, `error`) and one
  entry of the browser's `localStorage`. On mount it unlocks when the stored
  value under `aippt_vip_access` is exactly `"true"`. Typing sets the field.
  Submitting compares the field with the passphrase `ai888vip`. A match
  unlocks, stores `"true"` and clears the error. A mismatch shows the error
  and empties the field. It renders its children when unlocked and the
  challenge form otherwise.

The gate is specified by pure step functions (`Mounted`, `Typed`,
`Submitted`, `Run`, `Session`) on a `GateState` value. The class
`Gate.PasswordGate` holds the three cells and `Gate.LocalStorage` the shared
store; each handler is proved to perform exactly the corresponding step. The
lemmas over whole runs of events are stated on the step functions.

Where the intended design and the code differ, the model
follows the code:

- Normalisation strips only `-` (the regular expression `/-/g`), not every
  non-alphanumeric separator.
- The entries of `LOCKED_PAGE_IDS` are not normalised; they are compared as
  written. `NotionPage.LockedIdsHyphenFree` shows that they are hyphen-free,
  so the two readings agree for the configured list.
- Comparison is case-sensitive: an upper-case spelling of a listed id does
  not lock (`NotionPage.CaseSensitive`).
- There is no separate "checking" state. Before mount the gate is simply
  locked (`isUnlocked = false`), so the challenge form is what renders first.
- There is no fallback when storage is unavailable: the code calls
  `localStorage` directly.
- The gate withholds a locked page's content only from the rendered output.
  Before the lock decision, and whatever it decides, the page logs its
  record map to the console and, in the browser, assigns the record map and
  the block to `window.recordMap` and `window.block`
  (components/NotionPage.tsx:270-283). A locked page's content is therefore
  reachable on the client without the passphrase.

## Model

| member | source | states |
|---|---|---|
| NotionPage.StripHyphens | components/NotionPage.tsx:305-307 | the normalised id contains no hyphen and is no longer than the raw id; an id without hyphens is left unchanged |
| NotionPage.StripHyphensAppend | components/NotionPage.tsx:305-307 | normalising a concatenation is concatenating the normalised parts, so all non-hyphen characters are kept in order |
| NotionPage.StripHyphensIdempotent | components/NotionPage.tsx:305-307 | normalising twice is the same as normalising once |
| NotionPage.HyphenInsertionInvisible | components/NotionPage.tsx:305-307 | inserting a hyphen at any position does not change the normalised id |
| NotionPage.RawId | components/NotionPage.tsx:305-307 | definition of the `or ''` default: the id, or `""` when it is missing; `NotionPage.MissingIdsFailOpen` states what that means for the lock |
| NotionPage.IsLockedId | components/NotionPage.tsx:305-318 | definition of one `includes` test on a normalised id; only an id of at least 32 characters can be locked |
| NotionPage.ShouldLock | components/NotionPage.tsx:318 | definition of `shouldLock`, characterised in both directions by `NotionPage.ShouldLockIff` |
| NotionPage.SpellsIff | components/NotionPage.tsx:305-307 | an id normalises to `canon` exactly when it is `canon` written with hyphens inserted anywhere; this is an independent grammar-style definition |
| NotionPage.UuidFormNormalises | components/NotionPage.tsx:305-307 | the 8-4-4-4-12 hyphenated form of a 32-character hyphen-free id normalises back to that id |
| NotionPage.LockedIdsHyphenFree | components/NotionPage.tsx:310-313 | the listed ids contain no hyphen, so each is its own normal form |
| NotionPage.LockedBySelf | components/NotionPage.tsx:305-318 | a page whose id is a listed id, with any hyphens, is locked whatever its parent is |
| NotionPage.LockedByParent | components/NotionPage.tsx:305-318 | a page whose parent id is a listed id, with any hyphens, is locked whatever its own id is |
| NotionPage.ShouldLockIff | components/NotionPage.tsx:305-318 | a page is locked if and only if its own id or its parent id spells a listed id |
| NotionPage.HyphenVariantsAgree | components/NotionPage.tsx:305-318 | ids that differ by an inserted hyphen, in the page id or in the parent id, get the same lock decision |
| NotionPage.UuidFormsLocked | components/NotionPage.tsx:305-318 | a listed page written in hyphenated UUID form, or a child of one, is locked |
| NotionPage.MissingIdsFailOpen | components/NotionPage.tsx:305-318 | a missing id stands for `""` and matches nothing: with neither id the page is unlocked, and without a parent only the page's own id decides |
| NotionPage.CaseSensitive | components/NotionPage.tsx:305-318 | a listed id written in upper case locks neither as the page's id nor as its parent's; only the other id then decides |
| NotionPage.OneLevelOnly | components/NotionPage.tsx:318 | a listed root is locked, and so is its unlisted child; that child's own unlisted children are not locked |
| NotionPage.IsLiteMode | components/NotionPage.tsx:220 | definition of `isLiteMode`, characterised by `NotionPage.LiteModeExact` |
| NotionPage.IsBlogPost | components/NotionPage.tsx:237-238 | definition of `isBlogPost`, characterised by `NotionPage.BlogPostExact` |
| NotionPage.FirstKey | components/NotionPage.tsx:234-235 | `keys[0]` exists exactly when there is a record map with a non-empty block table |
| NotionPage.FirstBlock | components/NotionPage.tsx:234-235 | definition of `recordMap.block[keys[0]].value`; its contract says the block exists only when `keys[0]` does |
| NotionPage.LiteModeExact | components/NotionPage.tsx:220 | lite mode, which turns off the full-page layout, holds exactly when the `lite` parameter is `"true"`; `"TRUE"` does not count |
| NotionPage.BlogPostExact | components/NotionPage.tsx:237-238 | a blog post is exactly a block of type `page` whose parent table is `collection`; no block is not a blog post; the page content built for a shown page carries exactly that flag for its block |
| NotionPage.SelectOutcome | components/NotionPage.tsx:260-429 | a fallback route gives Loading and nothing else does; otherwise an error, a missing site or a missing block gives not-found; the lock decision is reached only with a block; the page is gated exactly when the lock rule holds, and gated and bare outcomes carry the same content |
| NotionPage.Visible | components/NotionPage.tsx:421-429 | in the rendered output: unlocked pages show their content as is; a gated page's content shows exactly when the gate is unlocked; nothing else is ever shown |
| NotionPage.LockedPageHiddenUntilUnlocked | components/NotionPage.tsx:421-429 | over any visitor session, a locked page's content is rendered if and only if the store already remembered an unlock or the passphrase was submitted |
| Gate.Mounted | components/PasswordGate.tsx:19-24 | definition of the mount effect, characterised by `Gate.MountReadsFlag` |
| Gate.Typed | components/PasswordGate.tsx:120 | definition of the change handler: the field takes the typed value and nothing else changes |
| Gate.Submitted | components/PasswordGate.tsx:26-36 | definition of the submit handler, characterised by `Gate.CorrectSubmitUnlocks` and `Gate.WrongSubmitRejected` |
| Gate.Step | components/PasswordGate.tsx:115-121 | definition: a typed value goes to `Typed`, a submission to `Submitted` |
| Gate.Run | components/PasswordGate.tsx:14-36 | definition of a run of events, characterised by `Gate.UnlockMonotone`, `Gate.OnlyFlagWritten`, `Gate.UnlockPersisted` and `Gate.UnlockedIff` |
| Gate.Session | components/PasswordGate.tsx:14-36 | definition of a lifetime (fresh state, mount, events), characterised by `Gate.SessionUnlockedIff` and `Gate.ReloadStaysUnlocked` |
| Gate.Lookup | components/PasswordGate.tsx:20 | `getItem`: a value exactly when the key is stored, and then the stored value; nothing (null) otherwise |
| Gate.Remembered | components/PasswordGate.tsx:20-21 | definition of `hasAccess === 'true'`, characterised by `Gate.MountReadsFlag` |
| Gate.LocalStorage.constructor | components/PasswordGate.tsx:20-30 | the browser store starts with the given entries |
| Gate.LocalStorage.GetItem | components/PasswordGate.tsx:20 | the read returns `Lookup` of the current entries and changes nothing |
| Gate.LocalStorage.SetItem | components/PasswordGate.tsx:30 | the write updates the entries in place: the key takes the value and every other entry is unchanged |
| Gate.Render | components/PasswordGate.tsx:39-127 | unlocked renders exactly the children; locked renders the challenge form, showing the field's input, with the error line exactly when `error` is set |
| Gate.InitialShowsChallenge | components/PasswordGate.tsx:14-16 | the initial state is an empty field, locked, no error, and it renders the bare challenge form |
| Gate.MountReadsFlag | components/PasswordGate.tsx:19-24 | mount unlocks if and only if the stored value is exactly `"true"` (or the gate was already unlocked), and changes neither the field nor the error |
| Gate.CorrectSubmitUnlocks | components/PasswordGate.tsx:28-31 | submitting the passphrase unlocks, clears the error and stores `"true"` under the key; the field keeps its value and the store changes nowhere else |
| Gate.WrongSubmitRejected | components/PasswordGate.tsx:32-35 | any other submission empties the field and sets the error, leaving the lock state and the store unchanged |
| Gate.NearMissesRejected | components/PasswordGate.tsx:28 | the passphrase with a trailing space, or in upper case, does not unlock; the exact passphrase does |
| Gate.UnlockMonotone | components/PasswordGate.tsx:14-36 | no sequence of events relocks an unlocked gate |
| Gate.OnlyFlagWritten | components/PasswordGate.tsx:12-36 | after any events the store is either unchanged or has gained exactly the key `aippt_vip_access` with value `"true"` |
| Gate.UnlockPersisted | components/PasswordGate.tsx:19-36 | when the gate is the store's only writer, an unlocked gate is always backed by the stored flag |
| Gate.UnlockedIff | components/PasswordGate.tsx:26-36 | a run ends unlocked if and only if it started unlocked or the passphrase was in the field at some submission |
| Gate.SessionUnlockedIff | components/PasswordGate.tsx:14-36 | a mounted gate ends unlocked if and only if the store remembered an unlock or the passphrase was submitted |
| Gate.ReloadStaysUnlocked | components/PasswordGate.tsx:19-31 | after a session that ended unlocked, a new gate mounted on the store it left starts unlocked and stays unlocked |
| Gate.ChildrenHiddenUntilUnlocked | components/PasswordGate.tsx:39-127 | without a stored flag and without a correct submission, the rendering is the challenge form, which has no place for the children |
| Gate.PasswordGate.constructor | components/PasswordGate.tsx:14-16 | the three cells start as the initial state |
| Gate.PasswordGate.Mount | components/PasswordGate.tsx:19-24 | the mount effect performs the `Mounted` step, reading the store without writing it |
| Gate.PasswordGate.OnChange | components/PasswordGate.tsx:120 | the change handler performs the `Typed` step: the field takes the typed value and nothing else changes |
| Gate.PasswordGate.HandleSubmit | components/PasswordGate.tsx:26-36 | the submit handler performs the `Submitted` step on the cells and on the shared store |
| Gate.PasswordGate.Handle | components/PasswordGate.tsx:115-121 | a user event runs its handler, with the effect `Step` specifies |
| Gate.PasswordGate.Show | components/PasswordGate.tsx:39-127 | the component's render equals `Render` of its current cells |
| Gate.Live | components/PasswordGate.tsx:7-128 | the instance is new; creating, mounting and driving an instance through events leaves the cells and the store as `Session` specifies |

## Left out

- Rendering and styling: the Notion renderer, the `<style jsx>` blocks, icons and markup text. The page's output is the abstract `Outcome` (`Loading`, `NotFound`, `Gated`, `Ungated`). The page content it carries holds only the page key and the `isBlogPost` and full-page flags. The gate's output is `Children` or `Challenge`.
- The dynamic imports and prism language loading (components/NotionPage.tsx:45-139): code splitting with no logic.
- Library lookups (`Tweet`, `getBlockTitle`, `getPageProperty`, `mapImageUrl`, `mapPageUrl`, `getCanonicalPageUrl`, `searchNotion`): calls into libraries that are not part of this model.
- `formatDate` and the `property*Value` renderers (components/NotionPage.tsx:152-191): they format dates through an external library.
- The dark-mode hook is not modelled; it only styles the content (`isDarkMode` is a third flag of the page content, and the model does not keep it). The results of `useRouter` and `useSearchParam` are inputs (`Request.isFallback`, `Request.lite`).
- `error` and `site` are modelled only as present or absent (`Request.hasError`, `Request.hasSite`); their contents go only to the not-found page and to the renderer.
- The record map's key order is the sequence order of `RecordMap.block`. A missing block table is the same as an empty one. Both give the same keys and no block.
- The `console.log` call and the `window` assignments (components/NotionPage.tsx:270-283). They run before the lock decision and whatever it decides, and expose the page's record map and block on the client whether or not the page is locked. `NotionPage.Visible` and `NotionPage.LockedPageHiddenUntilUnlocked` speak only of the rendered output.
- React scheduling: when the mount effect runs and how `useMemo` caches. Mount is one atomic step, and every handler call is one step.
- `e.preventDefault()` in the submit handler: it only stops the browser's own form submission.
- The model accepts both events, `Type` and `Submit`, in any state. The rendered form, with its input field and so typing and submission, exists only while the gate is locked.
- Several gate instances sharing the one storage key. A sibling that mounted earlier does not see a later unlock, and the code does nothing about it. `Gate.UnlockPersisted` assumes the gate is the store's only writer.
- Storage that is unavailable or throws, and storage cleared from outside: the code has no handling for either.
- components/Footer.tsx: presentation only, with links chosen by configuration values and the current year.
