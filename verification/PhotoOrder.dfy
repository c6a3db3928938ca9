/** The two photo selectors: the capped AI context order and the Etsy media plan. */
module PhotoOrder {
  import opened Prelude
  import opened StableSort

  datatype Photo = Photo(id: string, url: string, thumbnailUrl: string, sortOrder: int, isPrimary: bool,
                         altText: string, processingStatus: string)

  /**
   How ids compare: `localeCompare` as an abstract total preorder.  The AI context uses the
   host's default collation, the Etsy plan the English one: they need not be the same.
   */
  type IdOrder = (string, string) -> bool

  function BySortOrderThenId(idLe: IdOrder): (Photo, Photo) -> bool {
    (a: Photo, b: Photo) => a.sortOrder < b.sortOrder || (a.sortOrder == b.sortOrder && idLe(a.id, b.id))
  }

  function PrimaryFirst(): (Photo, Photo) -> bool {
    (a: Photo, b: Photo) => b.isPrimary ==> a.isPrimary
  }

  /** The single comparator of the Etsy plan. */
  function EtsyOrder(idLe: IdOrder): (Photo, Photo) -> bool {
    (a: Photo, b: Photo) =>
      (a.isPrimary && !b.isPrimary)
      || (a.isPrimary == b.isPrimary
          && (a.sortOrder < b.sortOrder || (a.sortOrder == b.sortOrder && idLe(a.id, b.id))))
  }

  function Take<T>(s: seq<T>, n: int): seq<T> {
    s[..if n <= 0 then 0 else if n < |s| then n else |s|]
  }

  datatype PhotoReference = PhotoReference(id: string, url: string)

  function References(photos: seq<Photo>): (r: seq<PhotoReference>)
    ensures |r| == |photos|
  {
    seq(|photos|, i requires 0 <= i < |photos| => PhotoReference(photos[i].id, photos[i].url))
  }

  /** `orderAndCapCanonicalProductPhotos`, on a host that collates by `hostLe`. */
  function OrderAndCap(photos: seq<Photo>, maxPhotos: int, hostLe: IdOrder): seq<PhotoReference> {
    var bySortOrderThenId := Sort(BySortOrderThenId(hostLe), photos);
    var primaryFirst := Sort(PrimaryFirst(), bySortOrderThenId);
    References(Take(primaryFirst, maxPhotos))
  }

  lemma OrdersAreTotal(idLe: IdOrder)
    requires TotalPreorder(idLe)
    ensures TotalPreorder(BySortOrderThenId(idLe)) && TotalPreorder(PrimaryFirst()) && TotalPreorder(EtsyOrder(idLe))
    ensures IsLexicographic(EtsyOrder(idLe), PrimaryFirst(), BySortOrderThenId(idLe))
  {
    var order, etsy := BySortOrderThenId(idLe), EtsyOrder(idLe);
    forall a, b ensures (order(a, b) || order(b, a)) && (etsy(a, b) || etsy(b, a)) {
      assert idLe(a.id, b.id) || idLe(b.id, a.id);
    }
    forall a, b, c | order(a, b) && order(b, c) ensures order(a, c) {
      assert idLe(a.id, b.id) && idLe(b.id, c.id) ==> idLe(a.id, c.id);
    }
    forall a, b, c | etsy(a, b) && etsy(b, c) ensures etsy(a, c) {
      assert idLe(a.id, b.id) && idLe(b.id, c.id) ==> idLe(a.id, c.id);
    }
  }

  /** The two stable sorts are one sort by the comparator of the Etsy plan, with the collation of the host. */
  lemma TwoSortsAreOne(photos: seq<Photo>, hostLe: IdOrder)
    requires TotalPreorder(hostLe)
    ensures Sort(PrimaryFirst(), Sort(BySortOrderThenId(hostLe), photos)) == Sort(EtsyOrder(hostLe), photos)
  {
    OrdersAreTotal(hostLe);
    SortsCompose(EtsyOrder(hostLe), PrimaryFirst(), BySortOrderThenId(hostLe), photos);
  }

  /** Photos that only their ids can tell apart. */
  predicate Tied(a: Photo, b: Photo) {
    a.isPrimary == b.isPrimary && a.sortOrder == b.sortOrder
  }

  /** The two collations order the ids of tied photos alike. */
  predicate AgreeOnTies(photos: seq<Photo>, le1: IdOrder, le2: IdOrder) {
    forall i, j | 0 <= i < |photos| && 0 <= j < |photos| && Tied(photos[i], photos[j]) ::
      le1(photos[i].id, photos[j].id) == le2(photos[i].id, photos[j].id)
  }

  lemma SameOrderOnTies(photos: seq<Photo>, le1: IdOrder, le2: IdOrder)
    requires AgreeOnTies(photos, le1, le2)
    ensures Sort(EtsyOrder(le1), photos) == Sort(EtsyOrder(le2), photos)
  {
    forall a, b | a in photos && b in photos ensures EtsyOrder(le1)(a, b) == EtsyOrder(le2)(a, b) {
      var i :| 0 <= i < |photos| && photos[i] == a;
      var j :| 0 <= j < |photos| && photos[j] == b;
      assert Tied(photos[i], photos[j]) ==> le1(a.id, b.id) == le2(a.id, b.id);
    }
    SortUsesOnlyItsMembers(EtsyOrder(le1), EtsyOrder(le2), photos);
  }

  // ----- the Etsy media plan -----

  const PHOTO_MAX: nat := 20
  const ALT_MAX_CODEPOINTS: nat := 500

  datatype IssueCode =
    | MissingPrimary | MultiplePrimaries | DuplicatePhotoId | ExcludedIncomplete
    | ImageLimit | MissingAltText | AltTextTooLong | UnsafeImageUrl

  datatype Issue = Issue(code: IssueCode, photoId: Option<string>, count: Option<nat>)

  datatype MediaItem = MediaItem(photoId: string, url: string, thumbnailUrl: string, sourceSortOrder: int,
                                 etsyRank: nat, isPrimary: bool, altText: string, altTextLength: nat,
                                 warnings: seq<IssueCode>)

  datatype Plan = Plan(media: seq<MediaItem>, issues: seq<Issue>, ready: bool, eligibleCount: nat, truncatedCount: nat)

  /** What the plan takes from outside: blankness after trimming, URL safety and id collation. */
  datatype Outside = Outside(blank: string -> bool, safe: string -> bool, idLe: IdOrder)

  /** No id is empty or repeated. */
  predicate UsableIds(photos: seq<Photo>) {
    && (forall i | 0 <= i < |photos| :: photos[i].id != "")
    && (forall i, j | 0 <= i < j < |photos| :: photos[i].id != photos[j].id)
  }

  predicate ReadyWithUrl(o: Outside, p: Photo) {
    p.processingStatus == "Ready" && !o.blank(p.url)
  }

  predicate SafeUrls(o: Outside, p: Photo) {
    o.safe(p.url) && (p.thumbnailUrl == "" || o.safe(p.thumbnailUrl))
  }

  predicate IsEligible(o: Outside, p: Photo) {
    ReadyWithUrl(o, p) && SafeUrls(o, p)
  }

  function Eligible(o: Outside, photos: seq<Photo>): seq<Photo> {
    if photos == [] then [] else
      var last := photos[|photos| - 1];
      Eligible(o, photos[..|photos| - 1]) + if IsEligible(o, last) then [last] else []
  }

  function UnsafeIssues(o: Outside, photos: seq<Photo>): seq<Issue> {
    if photos == [] then [] else
      var last := photos[|photos| - 1];
      UnsafeIssues(o, photos[..|photos| - 1])
      + if ReadyWithUrl(o, last) && !SafeUrls(o, last) then [Issue(UnsafeImageUrl, Some(last.id), None)] else []
  }

  function PrimaryCount(photos: seq<Photo>): nat {
    if photos == [] then 0
    else PrimaryCount(photos[..|photos| - 1]) + if photos[|photos| - 1].isPrimary then 1 else 0
  }

  function Warnings(o: Outside, p: Photo): seq<IssueCode> {
    (if o.blank(p.altText) then [MissingAltText] else [])
    + (if |p.altText| > ALT_MAX_CODEPOINTS then [AltTextTooLong] else [])
  }

  function WarningIssues(codes: seq<IssueCode>, id: string): seq<Issue> {
    seq(|codes|, i requires 0 <= i < |codes| => Issue(codes[i], Some(id), None))
  }

  function Item(o: Outside, p: Photo, rank: nat): MediaItem {
    MediaItem(p.id, p.url, p.thumbnailUrl, p.sortOrder, rank, p.isPrimary, p.altText, |p.altText|, Warnings(o, p))
  }

  function Media(o: Outside, photos: seq<Photo>): (r: seq<MediaItem>)
    ensures |r| == |photos|
  {
    seq(|photos|, i requires 0 <= i < |photos| => Item(o, photos[i], i + 1))
  }

  function AltIssues(o: Outside, photos: seq<Photo>): seq<Issue> {
    if photos == [] then [] else
      var last := photos[|photos| - 1];
      AltIssues(o, photos[..|photos| - 1]) + WarningIssues(Warnings(o, last), last.id)
  }

  function Counted(code: IssueCode, when: bool, n: nat): seq<Issue> {
    if when then [Issue(code, None, Some(n))] else []
  }

  /** The issues that follow those of duplicate ids and unsafe URLs, added to what is there. */
  function AddOtherIssues(o: Outside, photos: seq<Photo>, before: seq<Issue>): seq<Issue> {
    var eligible := Eligible(o, photos);
    var excluded := if |photos| >= |eligible| then |photos| - |eligible| else 0;
    var primaries := PrimaryCount(eligible);
    var sorted := Sort(EtsyOrder(o.idLe), eligible);
    var truncated := if |sorted| > PHOTO_MAX then |sorted| - PHOTO_MAX else 0;
    before
    + Counted(ExcludedIncomplete, excluded > 0, excluded)
    + (if primaries == 0 then [Issue(MissingPrimary, None, None)] else [])
    + Counted(MultiplePrimaries, primaries > 1, primaries)
    + Counted(ImageLimit, truncated > 0, truncated)
    + AltIssues(o, Take(sorted, PHOTO_MAX))
  }

  function PlanOf(o: Outside, photos: seq<Photo>): Plan {
    var eligible := Eligible(o, photos);
    var sorted := Sort(EtsyOrder(o.idLe), eligible);
    Plan(Media(o, Take(sorted, PHOTO_MAX)),
         AddOtherIssues(o, photos,
                        (if UsableIds(photos) then [] else [Issue(DuplicatePhotoId, None, None)])
                        + UnsafeIssues(o, photos)),
         UsableIds(photos) && PrimaryCount(eligible) == 1,
         |eligible|,
         if |sorted| > PHOTO_MAX then |sorted| - PHOTO_MAX else 0)
  }

  /** The loop over ids with a set of those seen. */
  method HasDuplicateId(photos: seq<Photo>) returns (duplicateId: bool)
    ensures duplicateId <==> !UsableIds(photos)
  {
    var ids: set<string> := {};
    duplicateId := false;
    for i := 0 to |photos|
      invariant forall x :: x in ids <==> exists j :: 0 <= j < i && photos[j].id == x
      invariant duplicateId <==> !UsableIds(photos[..i])
    {
      assert photos[..i + 1] == photos[..i] + [photos[i]];
      if photos[i].id == "" || photos[i].id in ids {
        duplicateId := true;
      }
      ids := ids + {photos[i].id};
    }
    assert photos[..|photos|] == photos;
  }

  /** The filter callback, which also reports unsafe URLs. */
  method FilterEligible(o: Outside, photos: seq<Photo>, before: seq<Issue>)
    returns (eligible: seq<Photo>, issues: seq<Issue>)
    ensures eligible == Eligible(o, photos) && |eligible| <= |photos|
    ensures issues == before + UnsafeIssues(o, photos)
  {
    eligible, issues := [], before;
    for i := 0 to |photos|
      invariant eligible == Eligible(o, photos[..i]) && |eligible| <= i
      invariant issues == before + UnsafeIssues(o, photos[..i])
    {
      assert photos[..i + 1][..i] == photos[..i];
      if ReadyWithUrl(o, photos[i]) {
        if !SafeUrls(o, photos[i]) {
          issues := issues + [Issue(UnsafeImageUrl, Some(photos[i].id), None)];
        } else {
          eligible := eligible + [photos[i]];
        }
      }
    }
    assert photos[..|photos|] == photos;
  }

  /** The map callback, which also reports alt-text warnings. */
  method MapMedia(o: Outside, shown: seq<Photo>, before: seq<Issue>) returns (media: seq<MediaItem>, issues: seq<Issue>)
    ensures media == Media(o, shown) && issues == before + AltIssues(o, shown)
  {
    media, issues := [], before;
    for i := 0 to |shown|
      invariant media == Media(o, shown[..i])
      invariant issues == before + AltIssues(o, shown[..i])
    {
      assert shown[..i + 1][..i] == shown[..i];
      var warnings := Warnings(o, shown[i]);
      issues := issues + WarningIssues(warnings, shown[i].id);
      media := media + [Item(o, shown[i], i + 1)];
    }
    assert shown[..|shown|] == shown;
  }

  /** `buildEtsyMediaPlan`. */
  method BuildEtsyMediaPlan(o: Outside, photos: seq<Photo>) returns (plan: Plan)
    ensures plan == PlanOf(o, photos)
  {
    hide Eligible, UnsafeIssues, AltIssues, Media, UsableIds, Sort, PrimaryCount, EtsyOrder, Take;
    var duplicateId := HasDuplicateId(photos);
    var issues := if duplicateId then [Issue(DuplicatePhotoId, None, None)] else [];
    var eligible;
    eligible, issues := FilterEligible(o, photos, issues);
    ghost var reported := issues;
    var excluded := |photos| - |eligible|;
    if excluded > 0 {
      issues := issues + [Issue(ExcludedIncomplete, None, Some(excluded))];
    }
    var primaries := PrimaryCount(eligible);
    if primaries == 0 {
      issues := issues + [Issue(MissingPrimary, None, None)];
    }
    if primaries > 1 {
      issues := issues + [Issue(MultiplePrimaries, None, Some(primaries))];
    }
    assert issues == reported + Counted(ExcludedIncomplete, excluded > 0, excluded)
      + (if primaries == 0 then [Issue(MissingPrimary, None, None)] else [])
      + Counted(MultiplePrimaries, primaries > 1, primaries);
    var sorted := Sort(EtsyOrder(o.idLe), eligible);
    var truncatedCount := if |sorted| > PHOTO_MAX then |sorted| - PHOTO_MAX else 0;
    if truncatedCount > 0 {
      issues := issues + [Issue(ImageLimit, None, Some(truncatedCount))];
    }
    var media;
    media, issues := MapMedia(o, Take(sorted, PHOTO_MAX), issues);
    plan := Plan(media, issues, !duplicateId && primaries == 1, |eligible|, truncatedCount);
  }

  // ----- what the plan guarantees -----

  function MediaReferences(media: seq<MediaItem>): seq<PhotoReference> {
    seq(|media|, i requires 0 <= i < |media| => PhotoReference(media[i].photoId, media[i].url))
  }

  /**
   The AI context, capped at `maxPhotos`, and the plan list the same of the eligible photos,
   as far as both go.
   */
  predicate SelectorsAgree(o: Outside, photos: seq<Photo>, hostLe: IdOrder, maxPhotos: int) {
    Take(OrderAndCap(Eligible(o, photos), maxPhotos, hostLe), PHOTO_MAX)
      == Take(MediaReferences(PlanOf(o, photos).media), maxPhotos)
  }

  lemma TakesCommute(photos: seq<Photo>, m: int, n: int)
    ensures Take(References(Take(photos, m)), n) == Take(References(Take(photos, n)), m)
  {
  }

  lemma AgreeingCollationsAgree(o: Outside, photos: seq<Photo>, hostLe: IdOrder, maxPhotos: int)
    requires TotalPreorder(o.idLe) && TotalPreorder(hostLe)
    requires AgreeOnTies(Eligible(o, photos), hostLe, o.idLe)
    ensures SelectorsAgree(o, photos, hostLe, maxPhotos)
  {
    var sorted := Sort(EtsyOrder(o.idLe), Eligible(o, photos));
    TwoSortsAreOne(Eligible(o, photos), hostLe);
    SameOrderOnTies(Eligible(o, photos), hostLe, o.idLe);
    hide Sort, Eligible, AddOtherIssues, EtsyOrder;
    TakesCommute(sorted, maxPhotos, PHOTO_MAX);
    assert MediaReferences(PlanOf(o, photos).media) == References(Take(sorted, PHOTO_MAX));
  }

  function PhotoNamed(id: string, url: string): Photo {
    Photo(id, url, "", 0, false, "", "Ready")
  }

  /** Two photos with nothing but their ids to order them come out differently where the collations differ. */
  lemma DisagreeingCollationsDisagree(o: Outside, hostLe: IdOrder, x: string, y: string, url: string, maxPhotos: int)
    requires TotalPreorder(o.idLe) && TotalPreorder(hostLe) && hostLe(x, y) != o.idLe(x, y)
    requires !o.blank(url) && o.safe(url) && maxPhotos >= 1
    ensures !SelectorsAgree(o, [PhotoNamed(x, url), PhotoNamed(y, url)], hostLe, maxPhotos)
  {
    var px, py := PhotoNamed(x, url), PhotoNamed(y, url);
    var photos := [px, py];
    EligiblePair(o, px, py);
    TwoSortsAreOne(photos, hostLe);
    SortOfPair(EtsyOrder(hostLe), px, py);
    SortOfPair(EtsyOrder(o.idLe), px, py);
    assert x != y;
    assert Take(OrderAndCap(photos, maxPhotos, hostLe), PHOTO_MAX)[0].id == if hostLe(x, y) then x else y;
    assert PlanOf(o, photos).media[0].photoId == if o.idLe(x, y) then x else y;
    assert Take(MediaReferences(PlanOf(o, photos).media), maxPhotos)[0].id == if o.idLe(x, y) then x else y;
  }

  lemma EligiblePair(o: Outside, a: Photo, b: Photo)
    requires IsEligible(o, a) && IsEligible(o, b)
    ensures Eligible(o, [a, b]) == [a, b]
  {
    assert [a, b][..1] == [a] && [a][..0] == [];
    assert Eligible(o, []) == [];
    assert Eligible(o, [a]) == Eligible(o, []) + [a];
  }

  /**
   Whatever the cap, unless it shows nothing: the two selectors order all photo lists alike
   exactly when the host's collation is the English one, given any displayable URL at all.
   */
  lemma SelectorsAgreeIffCollationsDo(o: Outside, hostLe: IdOrder, url: string, maxPhotos: int)
    requires TotalPreorder(o.idLe) && TotalPreorder(hostLe)
    requires !o.blank(url) && o.safe(url) && maxPhotos >= 1
    ensures (forall photos :: SelectorsAgree(o, photos, hostLe, maxPhotos))
      <==> (forall x, y :: hostLe(x, y) == o.idLe(x, y))
  {
    if x, y :| hostLe(x, y) != o.idLe(x, y) {
      DisagreeingCollationsDisagree(o, hostLe, x, y, url, maxPhotos);
    } else {
      forall photos ensures SelectorsAgree(o, photos, hostLe, maxPhotos) {
        AgreeingCollationsAgree(o, photos, hostLe, maxPhotos);
      }
    }
  }

  function ExcludedCount(o: Outside, photos: seq<Photo>): nat {
    if photos == [] then 0
    else ExcludedCount(o, photos[..|photos| - 1]) + if IsEligible(o, photos[|photos| - 1]) then 0 else 1
  }

  lemma {:induction false} EligiblePlusExcluded(o: Outside, photos: seq<Photo>)
    ensures |Eligible(o, photos)| + ExcludedCount(o, photos) == |photos|
    decreases |photos|
  {
    if photos != [] {
      EligiblePlusExcluded(o, photos[..|photos| - 1]);
    }
  }

  /** Every photo is shown, truncated or excluded, and the ranks are 1 to n. */
  lemma EveryPhotoAccountedFor(o: Outside, photos: seq<Photo>)
    requires TotalPreorder(o.idLe)
    ensures var p := PlanOf(o, photos);
      && |p.media| + p.truncatedCount + ExcludedCount(o, photos) == |photos|
      && |p.media| <= PHOTO_MAX
      && forall i | 0 <= i < |p.media| :: p.media[i].etsyRank == i + 1
  {
    hide Eligible, UnsafeIssues, AltIssues, UsableIds, Sort, PrimaryCount, EtsyOrder, ExcludedCount, TotalPreorder;
    SortedEligible(o, photos);
    EligiblePlusExcluded(o, photos);
  }

  /** What sorting the eligible photos gives. */
  lemma SortedEligible(o: Outside, photos: seq<Photo>)
    requires TotalPreorder(o.idLe)
    ensures var eligible, order := Eligible(o, photos), EtsyOrder(o.idLe);
      && TotalPreorder(order)
      && Sorted(order, Sort(order, eligible))
      && multiset(Sort(order, eligible)) == multiset(eligible)
      && |Sort(order, eligible)| == |eligible|
  {
    OrdersAreTotal(o.idLe);
    SortIsSorted(EtsyOrder(o.idLe), Eligible(o, photos));
    SameSize(Sort(EtsyOrder(o.idLe), Eligible(o, photos)), Eligible(o, photos));
  }

  lemma SameSize(a: seq<Photo>, b: seq<Photo>)
    requires multiset(a) == multiset(b)
    ensures |a| == |b|
  {
    assert |a| == |multiset(a)| && |b| == |multiset(b)|;
  }

  // ----- readiness -----

  lemma {:induction false} PrimariesAre(photos: seq<Photo>)
    ensures PrimaryCount(photos) > 0 <==> exists i :: 0 <= i < |photos| && photos[i].isPrimary
    ensures PrimaryCount(photos) <= 1 <==> forall i, j | 0 <= i < j < |photos| ::
      !(photos[i].isPrimary && photos[j].isPrimary)
    decreases |photos|
  {
    if photos != [] {
      var n := |photos| - 1;
      var rest := photos[..n];
      PrimariesAre(rest);
      assert forall i | 0 <= i < n :: rest[i] == photos[i];
    }
  }

  lemma {:induction false} PrimaryCountOfSplit(a: seq<Photo>, x: Photo, b: seq<Photo>)
    ensures PrimaryCount(a + [x] + b) == PrimaryCount(a + b) + if x.isPrimary then 1 else 0
    decreases |b|
  {
    if b == [] {
      assert (a + [x] + b)[..|a|] == a && a + b == a;
    } else {
      var n := |b| - 1;
      PrimaryCountOfSplit(a, x, b[..n]);
      assert (a + [x] + b)[..|a| + 1 + n] == a + [x] + b[..n];
      assert (a + b)[..|a| + n] == a + b[..n];
    }
  }

  lemma {:induction false} PrimaryCountOfPermutation(a: seq<Photo>, b: seq<Photo>)
    requires multiset(a) == multiset(b)
    ensures PrimaryCount(a) == PrimaryCount(b)
    decreases |a|
  {
    SameSize(a, b);
    if a != [] {
      var n := |a| - 1;
      var i := MatchOfLast(a, b);
      PrimaryCountOfPermutation(a[..n], b[..i] + b[i + 1..]);
      PrimaryCountOfSplit(b[..i], b[i], b[i + 1..]);
      assert b == b[..i] + [b[i]] + b[i + 1..];
    }
  }

  lemma MatchOfLast(a: seq<Photo>, b: seq<Photo>) returns (i: nat)
    requires a != [] && multiset(a) == multiset(b)
    ensures i < |b| && b[i] == a[|a| - 1]
    ensures multiset(a[..|a| - 1]) == multiset(b[..i] + b[i + 1..])
  {
    var n := |a| - 1;
    assert a[n] in multiset(b);
    i :| 0 <= i < |b| && b[i] == a[n];
    WithoutOne(a, n);
    WithoutOne(b, i);
    assert a[..n] + a[n + 1..] == a[..n];
  }

  lemma WithoutOne(s: seq<Photo>, i: nat)
    requires i < |s|
    ensures multiset(s[..i] + s[i + 1..]) == multiset(s) - multiset{s[i]}
    ensures s == s[..i] + [s[i]] + s[i + 1..]
  {
    assert s == s[..i] + [s[i]] + s[i + 1..];
  }

  /** The photo at `i` is the only primary. */
  predicate OnlyPrimary(photos: seq<Photo>, i: int) {
    && 0 <= i < |photos| && photos[i].isPrimary
    && forall j | 0 <= j < |photos| && j != i :: !photos[j].isPrimary
  }

  lemma OnePrimary(photos: seq<Photo>)
    ensures PrimaryCount(photos) == 1 <==> exists i :: OnlyPrimary(photos, i)
  {
    PrimariesAre(photos);
    if PrimaryCount(photos) == 1 {
      var i :| 0 <= i < |photos| && photos[i].isPrimary;
      assert OnlyPrimary(photos, i);
    }
  }

  lemma SortedPrimaryIsFirst(idLe: IdOrder, sorted: seq<Photo>)
    requires Sorted(EtsyOrder(idLe), sorted) && PrimaryCount(sorted) == 1
    ensures OnlyPrimary(sorted, 0)
  {
    OnePrimary(sorted);
    var i :| OnlyPrimary(sorted, i);
    PrimaryLeads(idLe, sorted, i);
  }

  lemma PrimaryLeads(idLe: IdOrder, sorted: seq<Photo>, i: nat)
    requires Sorted(EtsyOrder(idLe), sorted) && i < |sorted| && sorted[i].isPrimary
    ensures sorted[0].isPrimary
  {
    if i > 0 {
      assert EtsyOrder(idLe)(sorted[0], sorted[i]);
    }
  }

  /** The plan is ready exactly when ids are distinct and one eligible photo is the only primary. */
  lemma ReadyIff(o: Outside, photos: seq<Photo>)
    ensures PlanOf(o, photos).ready <==> UsableIds(photos) && exists i :: OnlyPrimary(Eligible(o, photos), i)
  {
    OnePrimary(Eligible(o, photos));
  }

  lemma OtherIssuesFollow(o: Outside, photos: seq<Photo>, before: seq<Issue>)
    ensures AddOtherIssues(o, photos, before) == before + AddOtherIssues(o, photos, [])
  {
    hide AltIssues, Sort, PrimaryCount, Eligible, Counted;
  }

  predicate BlocksReadiness(code: IssueCode) {
    code == DuplicatePhotoId || code == MissingPrimary || code == MultiplePrimaries
  }

  predicate NoneBlocks(issues: seq<Issue>) {
    forall i | 0 <= i < |issues| :: !BlocksReadiness(issues[i].code)
  }

  lemma NoneBlocksOfConcat(a: seq<Issue>, b: seq<Issue>)
    ensures NoneBlocks(a + b) <==> NoneBlocks(a) && NoneBlocks(b)
  {
    if NoneBlocks(a + b) {
      assert forall i | 0 <= i < |a| :: (a + b)[i] == a[i];
      assert forall i | 0 <= i < |b| :: (a + b)[|a| + i] == b[i];
    }
  }

  lemma {:induction false} UnsafeIssuesNeverBlock(o: Outside, photos: seq<Photo>)
    ensures NoneBlocks(UnsafeIssues(o, photos))
    decreases |photos|
  {
    if photos != [] {
      UnsafeIssuesNeverBlock(o, photos[..|photos| - 1]);
    }
  }

  lemma {:induction false} AltIssuesNeverBlock(o: Outside, photos: seq<Photo>)
    ensures NoneBlocks(AltIssues(o, photos))
    decreases |photos|
  {
    if photos != [] {
      AltIssuesNeverBlock(o, photos[..|photos| - 1]);
    }
  }

  /**
   What the caller is told: a plan is ready exactly when no issue names a duplicate id or a wrong
   number of primaries.
   */
  lemma ReadyIffNoBlockingIssue(o: Outside, photos: seq<Photo>)
    ensures var p := PlanOf(o, photos); p.ready <==> NoneBlocks(p.issues)
  {
    hide UsableIds, UnsafeIssues, AddOtherIssues, PrimaryCount, Eligible, Media, NoneBlocks;
    var duplicate := if UsableIds(photos) then [] else [Issue(DuplicatePhotoId, None, None)];
    OtherIssuesFollow(o, photos, duplicate + UnsafeIssues(o, photos));
    NoneBlocksOfConcat(duplicate + UnsafeIssues(o, photos), AddOtherIssues(o, photos, []));
    NoneBlocksOfConcat(duplicate, UnsafeIssues(o, photos));
    NoneBlocksOfFew(Issue(DuplicatePhotoId, None, None));
    UnsafeIssuesNeverBlock(o, photos);
    OtherIssuesBlock(o, photos);
  }

  lemma NoneBlocksOfFew(issue: Issue)
    ensures NoneBlocks([]) && (NoneBlocks([issue]) <==> !BlocksReadiness(issue.code))
  {
    assert [issue][0] == issue;
  }

  lemma OtherIssuesBlock(o: Outside, photos: seq<Photo>)
    ensures NoneBlocks(AddOtherIssues(o, photos, [])) <==> PrimaryCount(Eligible(o, photos)) == 1
  {
    var eligible := Eligible(o, photos);
    var primaries := PrimaryCount(eligible);
    var excluded := if |photos| >= |eligible| then |photos| - |eligible| else 0;
    var sorted := Sort(EtsyOrder(o.idLe), eligible);
    var truncated := if |sorted| > PHOTO_MAX then |sorted| - PHOTO_MAX else 0;
    var a := Counted(ExcludedIncomplete, excluded > 0, excluded);
    var b := if primaries == 0 then [Issue(MissingPrimary, None, None)] else [];
    var c := Counted(MultiplePrimaries, primaries > 1, primaries);
    var d := Counted(ImageLimit, truncated > 0, truncated);
    var e := AltIssues(o, Take(sorted, PHOTO_MAX));
    assert [] + a == a;
    assert AddOtherIssues(o, photos, []) == a + b + c + d + e;
    hide AddOtherIssues, AltIssues, Sort, PrimaryCount, Eligible, NoneBlocks;
    NoneBlocksOfConcat(a + b + c + d, e);
    NoneBlocksOfConcat(a + b + c, d);
    NoneBlocksOfConcat(a + b, c);
    NoneBlocksOfConcat(a, b);
    NoneBlocksOfFew(Issue(ExcludedIncomplete, None, Some(excluded)));
    NoneBlocksOfFew(Issue(MissingPrimary, None, None));
    NoneBlocksOfFew(Issue(MultiplePrimaries, None, Some(primaries)));
    NoneBlocksOfFew(Issue(ImageLimit, None, Some(truncated)));
    AltIssuesNeverBlock(o, Take(sorted, PHOTO_MAX));
  }

  /** A ready plan shows its one primary first. */
  lemma ReadyMeansOnePrimaryFirst(o: Outside, photos: seq<Photo>)
    requires TotalPreorder(o.idLe) && PlanOf(o, photos).ready
    ensures var media := PlanOf(o, photos).media;
      |media| > 0 && media[0].isPrimary && forall i | 0 < i < |media| :: !media[i].isPrimary
  {
    hide Eligible, UnsafeIssues, AltIssues, UsableIds, PrimaryCount, EtsyOrder, TotalPreorder, Sort;
    var sorted := Sort(EtsyOrder(o.idLe), Eligible(o, photos));
    SortedEligible(o, photos);
    PrimaryCountOfPermutation(sorted, Eligible(o, photos));
    SortedPrimaryIsFirst(o.idLe, sorted);
  }

  // ----- determinism -----

  /** No two ids tie; the empty id is no id. */
  ghost predicate Antisymmetric(idLe: IdOrder) {
    forall a, b | a != "" && b != "" && idLe(a, b) && idLe(b, a) :: a == b
  }

  lemma {:induction false} EligibleMultiset(o: Outside, photos: seq<Photo>, p: Photo)
    ensures multiset(Eligible(o, photos))[p] == if IsEligible(o, p) then multiset(photos)[p] else 0
    decreases |photos|
  {
    if photos != [] {
      var n := |photos| - 1;
      EligibleMultiset(o, photos[..n], p);
      assert photos == photos[..n] + [photos[n]];
    }
  }

  lemma MembersHaveDistinctIds(photos: seq<Photo>)
    requires UsableIds(photos)
    ensures forall a, b | a in multiset(photos) && b in multiset(photos) && a.id == b.id :: a == b
  {
    forall a, b | a in multiset(photos) && b in multiset(photos) && a.id == b.id ensures a == b {
      var i :| 0 <= i < |photos| && photos[i] == a;
      var j :| 0 <= j < |photos| && photos[j] == b;
    }
  }

  lemma {:induction false} DistinctCountsOnce(photos: seq<Photo>, p: Photo)
    requires UsableIds(photos)
    ensures multiset(photos)[p] <= 1
    decreases |photos|
  {
    if photos != [] {
      var n := |photos| - 1;
      DistinctCountsOnce(photos[..n], p);
      assert photos == photos[..n] + [photos[n]];
      assert p in photos[..n] ==> p != photos[n];
    }
  }

  lemma PermutationKeepsDistinctIds(a: seq<Photo>, b: seq<Photo>)
    requires UsableIds(a) && multiset(a) == multiset(b)
    ensures UsableIds(b)
  {
    MembersHaveDistinctIds(a);
    forall i | 0 <= i < |b| ensures b[i].id != "" {
      assert b[i] in multiset(a);
    }
    forall i, j | 0 <= i < j < |b| ensures b[i].id != b[j].id {
      assert b[i] in multiset(a) && b[j] in multiset(a);
      DistinctCountsOnce(a, b[i]);
      assert b == b[..j] + [b[j]] + b[j + 1..];
      assert b[i] in b[..j];
    }
  }

  lemma SortedEligibleIgnoresInputOrder(o: Outside, a: seq<Photo>, b: seq<Photo>)
    requires TotalPreorder(o.idLe) && Antisymmetric(o.idLe)
    requires UsableIds(a) && multiset(a) == multiset(b)
    ensures Sort(EtsyOrder(o.idLe), Eligible(o, a)) == Sort(EtsyOrder(o.idLe), Eligible(o, b))
    ensures |Eligible(o, a)| == |Eligible(o, b)| && PrimaryCount(Eligible(o, a)) == PrimaryCount(Eligible(o, b))
  {
    var ea, eb := Eligible(o, a), Eligible(o, b);
    forall p ensures multiset(ea)[p] == multiset(eb)[p] {
      EligibleMultiset(o, a, p);
      EligibleMultiset(o, b, p);
    }
    assert multiset(ea) == multiset(eb);
    SameSize(ea, eb);
    PrimaryCountOfPermutation(ea, eb);
    SortedEligible(o, a);
    SortedEligible(o, b);
    EligibleTieFree(o, a);
    SortedPermutationIsUnique(EtsyOrder(o.idLe), Sort(EtsyOrder(o.idLe), ea), Sort(EtsyOrder(o.idLe), eb));
  }

  lemma UnsafeIssuesSnoc(o: Outside, photos: seq<Photo>, x: Photo)
    ensures multiset(UnsafeIssues(o, photos + [x]))
         == multiset(UnsafeIssues(o, photos)) + multiset(UnsafeIssues(o, [x]))
  {
    assert (photos + [x])[..|photos|] == photos && [x][..0] == [];
    assert UnsafeIssues(o, photos + [x]) == UnsafeIssues(o, photos) + UnsafeIssues(o, [x]);
  }

  lemma {:induction false} UnsafeIssuesOfSplit(o: Outside, a: seq<Photo>, x: Photo, b: seq<Photo>)
    ensures multiset(UnsafeIssues(o, a + [x] + b)) == multiset(UnsafeIssues(o, a + b)) + multiset(UnsafeIssues(o, [x]))
    decreases |b|
  {
    hide UnsafeIssues;
    if b == [] {
      UnsafeIssuesSnoc(o, a, x);
      assert a + [x] + b == a + [x] && a + b == a;
    } else {
      var n := |b| - 1;
      UnsafeIssuesOfSplit(o, a, x, b[..n]);
      UnsafeIssuesSnoc(o, a + [x] + b[..n], b[n]);
      UnsafeIssuesSnoc(o, a + b[..n], b[n]);
      assert a + [x] + b == a + [x] + b[..n] + [b[n]] && a + b == a + b[..n] + [b[n]];
    }
  }

  lemma {:induction false} UnsafeIssuesOfPermutation(o: Outside, a: seq<Photo>, b: seq<Photo>)
    requires multiset(a) == multiset(b)
    ensures multiset(UnsafeIssues(o, a)) == multiset(UnsafeIssues(o, b))
    decreases |a|
  {
    hide UnsafeIssues;
    SameSize(a, b);
    if a == [] {
      assert b == [];
    } else {
      var n := |a| - 1;
      var i := MatchOfLast(a, b);
      var rest := b[..i] + b[i + 1..];
      UnsafeIssuesOfPermutation(o, a[..n], rest);
      UnsafeIssuesSnoc(o, a[..n], a[n]);
      UnsafeIssuesOfSplit(o, b[..i], b[i], b[i + 1..]);
      assert a[..n] + [a[n]] == a;
      assert b[..i] + [b[i]] + b[i + 1..] == b;
    }
  }

  /**
   Distinct ids under a total id order: any permutation of the photos yields the same
   media list, readiness and counts, and the same issues as often each.
   */
  lemma PlanIgnoresInputOrder(o: Outside, a: seq<Photo>, b: seq<Photo>)
    requires TotalPreorder(o.idLe) && Antisymmetric(o.idLe)
    requires UsableIds(a) && multiset(a) == multiset(b)
    ensures var p, q := PlanOf(o, a), PlanOf(o, b);
      p.(issues := []) == q.(issues := []) && multiset(p.issues) == multiset(q.issues)
  {
    hide UsableIds, UnsafeIssues, AltIssues, Sort, PrimaryCount, Eligible, Media, TotalPreorder;
    SameSize(a, b);
    PermutationKeepsDistinctIds(a, b);
    SortedEligibleIgnoresInputOrder(o, a, b);
    UnsafeIssuesOfPermutation(o, a, b);
    OtherIssuesFollow(o, a, UnsafeIssues(o, a));
    OtherIssuesFollow(o, b, UnsafeIssues(o, b));
  }

  lemma EligibleTieFree(o: Outside, photos: seq<Photo>)
    requires Antisymmetric(o.idLe) && UsableIds(photos)
    ensures TieFree(EtsyOrder(o.idLe), multiset(Eligible(o, photos)))
  {
    var m := multiset(Eligible(o, photos));
    MembersHaveDistinctIds(photos);
    forall p, q | p in m && q in m && Equivalent(EtsyOrder(o.idLe), p, q) ensures p == q {
      EligibleMultiset(o, photos, p);
      EligibleMultiset(o, photos, q);
      assert p in multiset(photos) && q in multiset(photos);
      assert p.id == q.id;
    }
  }

  /** Two photos whose ids tie are shown in the order in which they came. */
  lemma TiedIdsFollowTheInput(o: Outside, x: string, y: string, url: string)
    requires x != y && x != "" && y != "" && o.idLe(x, y) && o.idLe(y, x)
    requires !o.blank(url) && o.safe(url)
    ensures var a, b := [PhotoNamed(x, url), PhotoNamed(y, url)], [PhotoNamed(y, url), PhotoNamed(x, url)];
      UsableIds(a) && multiset(a) == multiset(b) && PlanOf(o, a).media != PlanOf(o, b).media
  {
    var px, py := PhotoNamed(x, url), PhotoNamed(y, url);
    TiedPairKeepsOrder(o, px, py);
    TiedPairKeepsOrder(o, py, px);
    hide PlanOf;
    PairIsBoth(px, py);
  }

  lemma TiedPairKeepsOrder(o: Outside, a: Photo, b: Photo)
    requires IsEligible(o, a) && IsEligible(o, b) && EtsyOrder(o.idLe)(a, b)
    ensures var media := PlanOf(o, [a, b]).media; |media| > 0 && media[0].photoId == a.id
  {
    EligiblePair(o, a, b);
    SortOfPair(EtsyOrder(o.idLe), a, b);
    hide Sort, Eligible, AddOtherIssues, UnsafeIssues;
  }

  lemma PairIsBoth(a: Photo, b: Photo)
    ensures multiset([a, b]) == multiset([b, a])
  {
    assert multiset([a, b]) == multiset{a, b};
  }

  /** The plan shows any photos with distinct ids alike in every order exactly when no two ids tie. */
  lemma OrderIndependentIffNoTies(o: Outside, url: string)
    requires TotalPreorder(o.idLe) && !o.blank(url) && o.safe(url)
    ensures Antisymmetric(o.idLe) <==>
      forall a, b | UsableIds(a) && multiset(a) == multiset(b) :: PlanOf(o, a).media == PlanOf(o, b).media
  {
    if Antisymmetric(o.idLe) {
      forall a, b | UsableIds(a) && multiset(a) == multiset(b) ensures PlanOf(o, a).media == PlanOf(o, b).media {
        PlanIgnoresInputOrder(o, a, b);
      }
    } else {
      var x, y :| x != "" && y != "" && o.idLe(x, y) && o.idLe(y, x) && x != y;
      TiedIdsFollowTheInput(o, x, y, url);
    }
  }
}
