/**
 * The page-restriction decision of components/NotionPage.tsx: which of the
 * four outcomes a page request gets (loading placeholder, not-found page,
 * content behind the password gate, or bare content), and the rule that puts
 * a page behind the gate when its own id or its direct parent's id is listed.
 */
module NotionPage {
  import opened Wrappers
  import Gate

  /** The ids of the restricted top-level pages, written without hyphens. */
  const LockedPageIds: seq<string> := [
    "2e8a2b748e4d80e58739d25aa9a83220",
    "2e8a2b748e4d80faa623eea08adf2f66"
  ]

  /** The two fields of a block value the page reads, plus its parent's id. */
  datatype Block = Block(blockType: string, parentTable: string, parentId: Option<string>)

  /** One entry of the record map's block table: its key (the block's id) and
      its value, which may be missing. Entries are in the table's key order. */
  datatype BlockEntry = BlockEntry(key: string, value: Option<Block>)

  /** The record map; an absent block table is the same as an empty one. */
  datatype RecordMap = RecordMap(block: seq<BlockEntry>)

  /** What the page receives: the router's fallback flag, whether an error,
      a site and a record map were supplied, and the `lite` query parameter. */
  datatype Request = Request(
    isFallback: bool,
    hasError: bool,
    hasSite: bool,
    recordMap: Option<RecordMap>,
    lite: Option<string>)

  /** The flags the page computes for its renderer; the rendered body itself
      is opaque here. */
  datatype PageContent = PageContent(pageKey: string, isBlogPost: bool, fullPage: bool)

  datatype Outcome =
    | Loading
    | NotFound
    | Gated(content: PageContent)
    | Ungated(content: PageContent)

  // ---------------------------------------------------------------------------
  // Id normalisation

  /** `s.replace(/-/g, '')`: every hyphen removed, every other character kept
      in order. */
  function StripHyphens(s: string): (r: string)
    ensures '-' !in r
    ensures |r| <= |s|
    ensures '-' !in s ==> r == s
    decreases |s|
  {
    if s == [] then []
    else if s[0] == '-' then StripHyphens(s[1..])
    else [s[0]] + StripHyphens(s[1..])
  }

  lemma {:induction false} StripHyphensAppend(a: string, b: string)
    ensures StripHyphens(a + b) == StripHyphens(a) + StripHyphens(b)
    decreases |a|
  {
    if a != [] {
      assert (a + b)[1..] == a[1..] + b;
      StripHyphensAppend(a[1..], b);
    } else {
      assert a + b == b;
    }
  }

  lemma StripHyphensIdempotent(s: string)
    ensures StripHyphens(StripHyphens(s)) == StripHyphens(s)
  {
  }

  lemma HyphenStripsToEmpty()
    ensures StripHyphens("-") == []
  {
  }

  /** Joining with a hyphen before a hyphen-free tail appends the tail. */
  lemma HyphenJoin(x: string, b: string)
    requires '-' !in b
    ensures StripHyphens(x + "-" + b) == StripHyphens(x) + b
  {
    HyphenStripsToEmpty();
    StripHyphensAppend(x, "-");
    StripHyphensAppend(x + "-", b);
  }

  /** A hyphen inserted anywhere in an id is invisible after normalisation. */
  lemma {:induction false} HyphenInsertionInvisible(s: string, i: nat)
    requires i <= |s|
    ensures StripHyphens(s[..i] + "-" + s[i..]) == StripHyphens(s)
  {
    var pre, post := s[..i], s[i..];
    HyphenStripsToEmpty();
    StripHyphensAppend(pre, "-");
    assert StripHyphens(pre + "-") == StripHyphens(pre);
    StripHyphensAppend(pre + "-", post);
    StripHyphensAppend(pre, post);
    assert pre + post == s;
  }

  /** `raw` is `canon` written with hyphens inserted anywhere (possibly none);
      `canon` itself has none. */
  predicate Spells(raw: string, canon: string)
    decreases |raw|
  {
    if raw == [] then canon == []
    else if raw[0] == '-' then Spells(raw[1..], canon)
    else canon != [] && raw[0] == canon[0] && Spells(raw[1..], canon[1..])
  }

  /** Normalisation is exactly the inverse of writing a hyphen-free id with
      hyphens: `raw` spells `canon` iff stripping `raw` yields `canon`. */
  lemma {:induction false} SpellsIff(raw: string, canon: string)
    ensures Spells(raw, canon) <==> StripHyphens(raw) == canon
    decreases |raw|
  {
    if raw != [] {
      if raw[0] == '-' {
        SpellsIff(raw[1..], canon);
      } else if canon != [] {
        SpellsIff(raw[1..], canon[1..]);
        assert StripHyphens(raw) == [raw[0]] + StripHyphens(raw[1..]);
      }
    }
  }

  // ---------------------------------------------------------------------------
  // The lock rule

  /** `(x || '')`: a missing or empty id stands for the empty string. */
  function RawId(id: Option<string>): string
  {
    id.GetOr("")
  }

  predicate IsLockedId(id: string)
    ensures IsLockedId(id) ==> |id| >= 32
  {
    StripHyphens(id) in LockedPageIds
  }

  /** `shouldLock`: the page's own id or its parent's id, hyphens stripped, is
      one of the listed ids. */
  predicate ShouldLock(pageKey: Option<string>, parentId: Option<string>)
  {
    IsLockedId(RawId(pageKey)) || IsLockedId(RawId(parentId))
  }

  /** The listed ids are compared as written: they contain no hyphen, so
      they are already in normal form. */
  lemma LockedIdsHyphenFree()
    ensures forall e :: e in LockedPageIds ==> '-' !in e && StripHyphens(e) == e
  {
    assert '-' !in LockedPageIds[0];
    assert '-' !in LockedPageIds[1];
  }

  /** A listed page is locked whatever its parent. */
  lemma LockedBySelf(pageKey: string, parentId: Option<string>)
    requires exists e :: e in LockedPageIds && Spells(pageKey, e)
    ensures ShouldLock(Some(pageKey), parentId)
  {
    var e :| e in LockedPageIds && Spells(pageKey, e);
    SpellsIff(pageKey, e);
  }

  /** A direct child of a listed page is locked whatever its own id. */
  lemma LockedByParent(pageKey: Option<string>, parentId: string)
    requires exists e :: e in LockedPageIds && Spells(parentId, e)
    ensures ShouldLock(pageKey, Some(parentId))
  {
    var e :| e in LockedPageIds && Spells(parentId, e);
    SpellsIff(parentId, e);
  }

  /** The whole rule: a page is locked iff its own id or its parent's id is a
      listed id written with any hyphens inserted. */
  lemma ShouldLockIff(pageKey: Option<string>, parentId: Option<string>)
    ensures ShouldLock(pageKey, parentId) <==>
      exists e :: e in LockedPageIds && (Spells(RawId(pageKey), e) || Spells(RawId(parentId), e))
  {
    if ShouldLock(pageKey, parentId) {
      var e := if IsLockedId(RawId(pageKey)) then StripHyphens(RawId(pageKey)) else StripHyphens(RawId(parentId));
      SpellsIff(RawId(pageKey), e);
      SpellsIff(RawId(parentId), e);
    } else {
      forall e | e in LockedPageIds
        ensures !Spells(RawId(pageKey), e) && !Spells(RawId(parentId), e)
      {
        SpellsIff(RawId(pageKey), e);
        SpellsIff(RawId(parentId), e);
      }
    }
  }

  /** Ids that differ only by hyphens get the same decision. */
  lemma HyphenVariantsAgree(pageKey: string, parentId: string, i: nat, j: nat)
    requires i <= |pageKey| && j <= |parentId|
    ensures ShouldLock(Some(pageKey[..i] + "-" + pageKey[i..]), Some(parentId)) == ShouldLock(Some(pageKey), Some(parentId))
    ensures ShouldLock(Some(pageKey), Some(parentId[..j] + "-" + parentId[j..])) == ShouldLock(Some(pageKey), Some(parentId))
  {
    HyphenInsertionInvisible(pageKey, i);
    HyphenInsertionInvisible(parentId, j);
  }

  /** Fail-open: a missing id matches nothing, so a page with neither id is
      unlocked, and a page without a parent is decided by its own id alone. */
  lemma MissingIdsFailOpen(pageKey: Option<string>)
    ensures !ShouldLock(None, None)
    ensures ShouldLock(pageKey, None) <==> IsLockedId(RawId(pageKey))
    ensures ShouldLock(Some(""), Some("")) == ShouldLock(None, None)
  {
    assert "" !in LockedPageIds;
  }

  /** The 8-4-4-4-12 hyphenated form in which page ids are usually written. */
  function UuidForm(e: string): (u: string)
    requires |e| == 32
    ensures |u| == 36
  {
    e[..8] + "-" + e[8..12] + "-" + e[12..16] + "-" + e[16..20] + "-" + e[20..]
  }

  /** Writing a hyphen-free 32-character id in its hyphenated form does not
      change its normal form. */
  lemma UuidFormNormalises(e: string)
    requires |e| == 32 && '-' !in e
    ensures StripHyphens(UuidForm(e)) == e
  {
    var a, b, c, d, f := e[..8], e[8..12], e[12..16], e[16..20], e[20..];
    SliceHyphenFree(e, 0, 8);
    SliceHyphenFree(e, 8, 12);
    SliceHyphenFree(e, 12, 16);
    SliceHyphenFree(e, 16, 20);
    SliceHyphenFree(e, 20, 32);
    var x2 := a + "-" + b;
    var x3 := x2 + "-" + c;
    var x4 := x3 + "-" + d;
    HyphenJoin(a, b);
    HyphenJoin(x2, c);
    HyphenJoin(x3, d);
    HyphenJoin(x4, f);
    UuidSlicesCover(e);
  }

  lemma SliceHyphenFree(e: string, i: nat, j: nat)
    requires i <= j <= |e| && '-' !in e
    ensures '-' !in e[i..j]
  {
  }

  lemma UuidSlicesCover(e: string)
    requires |e| == 32
    ensures e == e[..8] + e[8..12] + e[12..16] + e[16..20] + e[20..]
  {
  }

  /** A listed page, or a child of one, is locked whether its id is written
      with or without hyphens. */
  lemma UuidFormsLocked(e: string, other: Option<string>)
    requires e in LockedPageIds
    ensures |e| == 32
    ensures ShouldLock(Some(UuidForm(e)), other) && ShouldLock(other, Some(UuidForm(e)))
  {
    LockedIdsHyphenFree();
    UuidFormNormalises(e);
  }

  /** ASCII upper case, character by character. */
  function Upper(s: string): (u: string)
    ensures |u| == |s|
  {
    seq(|s|, i requires 0 <= i < |s| => if 'a' <= s[i] <= 'z' then (s[i] as int - 32) as char else s[i])
  }

  lemma UpperHyphenFree(s: string)
    requires '-' !in s
    ensures '-' !in Upper(s)
  {
    forall i | 0 <= i < |s| ensures Upper(s)[i] != '-' {
      assert s[i] in s;
    }
  }

  /** Both listed ids have a lower-case `e` second, so no id with an upper-case
      `E` there normalises to one of them. */
  lemma UnlistedWithUpperSecond(u: string)
    requires |u| >= 2 && u[1] == 'E' && '-' !in u
    ensures !IsLockedId(u)
  {
    assert LockedPageIds[0][1] == 'e' && LockedPageIds[1][1] == 'e';
  }

  /** The comparison is case-sensitive: a listed id spelled in upper case
      locks neither as the page's id nor as its parent's. */
  lemma CaseSensitive(e: string, other: Option<string>)
    requires e in LockedPageIds
    ensures IsLockedId(e)
    ensures ShouldLock(Some(Upper(e)), other) <==> IsLockedId(RawId(other))
    ensures ShouldLock(other, Some(Upper(e))) <==> IsLockedId(RawId(other))
  {
    LockedIdsHyphenFree();
    LockedIdsSecondChar();
    UpperHyphenFree(e);
    UnlistedWithUpperSecond(Upper(e));
  }

  lemma LockedIdsSecondChar()
    ensures forall e :: e in LockedPageIds ==> |e| == 32 && e[1] == 'e'
  {
    assert |LockedPageIds[0]| == 32 && LockedPageIds[0][1] == 'e';
    assert |LockedPageIds[1]| == 32 && LockedPageIds[1][1] == 'e';
  }

  /** Only one ancestor level counts: when a listed root has an unlisted child,
      that child is locked but the child's own unlisted children are not. */
  lemma OneLevelOnly(root: string, child: string, grandchild: string)
    requires root in LockedPageIds
    requires !IsLockedId(child) && !IsLockedId(grandchild)
    ensures ShouldLock(Some(root), None)
    ensures ShouldLock(Some(child), Some(root))
    ensures !ShouldLock(Some(grandchild), Some(child))
  {
    LockedIdsHyphenFree();
  }

  // ---------------------------------------------------------------------------
  // The page's other predicates and the outcome chain

  /** `lite === 'true'`: only that exact query value selects lite mode. */
  predicate IsLiteMode(lite: Option<string>)
  {
    lite == Some("true")
  }

  /** A page block whose parent is a collection is a blog post. */
  predicate IsBlogPost(block: Option<Block>)
  {
    block.Some? && block.value.blockType == "page" && block.value.parentTable == "collection"
  }

  /** `keys[0]`: the key of the first entry of the block table, if any. */
  function FirstKey(rm: Option<RecordMap>): (k: Option<string>)
    ensures k.Some? <==> rm.Some? && rm.value.block != []
  {
    if rm.Some? && rm.value.block != [] then Some(rm.value.block[0].key) else None
  }

  /** The value stored under the first key: the block the page shows. */
  function FirstBlock(rm: Option<RecordMap>): (b: Option<Block>)
    ensures b.Some? ==> FirstKey(rm).Some?
  {
    if rm.Some? && rm.value.block != [] then rm.value.block[0].value else None
  }

  /** What the page renders for a request. */
  function SelectOutcome(req: Request): (o: Outcome)
    // the fallback check comes first
    ensures req.isFallback <==> o == Loading
    // then an error, a missing site or a missing block give not-found
    ensures o == NotFound <==> !req.isFallback && (req.hasError || !req.hasSite || FirstBlock(req.recordMap).None?)
    // the lock decision is reached only with a block, and wraps the same content
    ensures (o.Gated? || o.Ungated?) ==>
      FirstBlock(req.recordMap).Some? &&
      o.content == PageContent(RawId(FirstKey(req.recordMap)), IsBlogPost(FirstBlock(req.recordMap)), !IsLiteMode(req.lite))
    ensures o.Gated? <==>
      o != Loading && o != NotFound &&
      ShouldLock(FirstKey(req.recordMap), FirstBlock(req.recordMap).value.parentId)
  {
    if req.isFallback then Loading
    else
      var block := FirstBlock(req.recordMap);
      if req.hasError || !req.hasSite || block.None? then NotFound
      else
        var key := FirstKey(req.recordMap);
        var content := PageContent(RawId(key), IsBlogPost(block), !IsLiteMode(req.lite));
        if ShouldLock(key, block.value.parentId) then Gated(content) else Ungated(content)
  }

  /** Lite mode is exactly the query value "true", and turns off the full-page
      layout; any other value, or none, keeps it. */
  lemma LiteModeExact(req: Request)
    requires SelectOutcome(req).Gated? || SelectOutcome(req).Ungated?
    ensures !SelectOutcome(req).content.fullPage <==> req.lite == Some("true")
    ensures req.lite == Some("TRUE") ==> SelectOutcome(req).content.fullPage
  {
  }

  /** A blog post is exactly a page block under a collection, and that is the
      flag the page content carries. */
  lemma BlogPostExact(block: Block, req: Request)
    ensures IsBlogPost(Some(block)) <==> block.blockType == "page" && block.parentTable == "collection"
    ensures !IsBlogPost(None)
    ensures SelectOutcome(req).Gated? || SelectOutcome(req).Ungated? ==>
      (SelectOutcome(req).content.isBlogPost <==>
        FirstBlock(req.recordMap).value.blockType == "page" && FirstBlock(req.recordMap).value.parentTable == "collection")
  {
  }

  /** What the page renders for the visitor: a locked page's content is
      rendered only through the gate, so it is withheld from the rendered
      output for exactly as long as the gate is locked; an unlocked page's
      content is rendered as is. */
  function Visible(o: Outcome, gate: Gate.GateState): (v: Option<PageContent>)
    ensures o.Ungated? ==> v == Some(o.content)
    ensures o.Gated? ==> (v.Some? <==> gate.isUnlocked)
    ensures v.Some? ==> (o.Gated? || o.Ungated?) && v.value == o.content
  {
    match o
    case Loading => None
    case NotFound => None
    case Ungated(c) => Some(c)
    case Gated(c) =>
      match Gate.Render(gate, c)
      case Children(shown) => Some(shown)
      case Challenge(_, _) => None
  }

  /** End to end: the content of a locked page is not rendered during any
      visitor session that neither found the flag stored nor submitted the
      passphrase, and is rendered once the passphrase has been submitted. */
  lemma LockedPageHiddenUntilUnlocked(req: Request, store: Gate.Store, es: seq<Gate.Event>)
    requires SelectOutcome(req).Gated?
    ensures Visible(SelectOutcome(req), Gate.Session(store, es).0).Some? <==>
      Gate.Remembered(store) || Gate.SubmitsPassword("", es)
  {
    Gate.SessionUnlockedIff(store, es);
  }
}
