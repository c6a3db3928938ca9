/** What the photo selectors show and report, told on the photos themselves. */
module PhotoMeaning {
  import opened Prelude
  import opened StableSort
  import opened PhotoOrder

  /** The plan may show this photo: it is processed, and all its URLs can be displayed. */
  predicate MayShow(o: Outside, p: Photo) {
    && p.processingStatus == "Ready"
    && !o.blank(p.url) && o.safe(p.url)
    && (p.thumbnailUrl == "" || o.safe(p.thumbnailUrl))
  }

  /** `a` comes before `b`: the primary first, then by sort order, then by id. */
  predicate ComesBefore(idLe: IdOrder, a: Photo, b: Photo) {
    if a.isPrimary != b.isPrimary then a.isPrimary
    else if a.sortOrder != b.sortOrder then a.sortOrder < b.sortOrder
    else idLe(a.id, b.id)
  }

  /** `r` holds the photos of `s` that may be shown, each as often as `s` does, in order. */
  ghost predicate Ordered(o: Outside, idLe: IdOrder, s: seq<Photo>, r: seq<Photo>) {
    && (forall i, j | 0 <= i < j < |r| :: ComesBefore(idLe, r[i], r[j]))
    && (forall p :: multiset(r)[p] == if MayShow(o, p) then multiset(s)[p] else 0)
  }

  /** The item shows photo `p` at this rank, and its warnings say what is wrong with its alt text. */
  predicate Shows(o: Outside, m: MediaItem, p: Photo, rank: int) {
    && m.photoId == p.id && m.url == p.url && m.thumbnailUrl == p.thumbnailUrl && m.sourceSortOrder == p.sortOrder
    && m.isPrimary == p.isPrimary && m.altText == p.altText && m.altTextLength == |p.altText| && m.etsyRank == rank
    && (MissingAltText in m.warnings <==> o.blank(p.altText))
    && (AltTextTooLong in m.warnings <==> |p.altText| > 500)
    && |m.warnings| == (if o.blank(p.altText) then 1 else 0) + (if |p.altText| > 500 then 1 else 0)
  }

  /** All photos that may be shown, in the one order, of which the first twenty are. */
  lemma PlanShows(o: Outside, photos: seq<Photo>) returns (ordered: seq<Photo>)
    requires TotalPreorder(o.idLe)
    ensures Ordered(o, o.idLe, photos, ordered)
    ensures var p := PlanOf(o, photos);
      && p.eligibleCount == |ordered|
      && |p.media| == (if |ordered| < 20 then |ordered| else 20)
      && p.truncatedCount == |ordered| - |p.media|
      && forall i | 0 <= i < |p.media| :: Shows(o, p.media[i], ordered[i], i + 1)
  {
    hide PlanOf, TotalPreorder, Ordered, Shows, Item, EtsyOrder;
    ordered := Sort(EtsyOrder(o.idLe), Eligible(o, photos));
    SortedIsOrdered(o, photos);
    PlanMediaIs(o, photos);
    forall i: nat | i < |PlanOf(o, photos).media| ensures Shows(o, PlanOf(o, photos).media[i], ordered[i], i + 1) {
      ItemShows(o, ordered[i], i + 1);
    }
  }

  lemma PlanMediaIs(o: Outside, photos: seq<Photo>)
    requires TotalPreorder(o.idLe)
    ensures var p, ordered := PlanOf(o, photos), Sort(EtsyOrder(o.idLe), Eligible(o, photos));
      && p.eligibleCount == |ordered|
      && |p.media| == (if |ordered| < 20 then |ordered| else 20)
      && p.truncatedCount == |ordered| - |p.media|
      && forall i | 0 <= i < |p.media| :: p.media[i] == Item(o, ordered[i], i + 1)
  {
    hide *;
    SortedEligible(o, photos);
    PlanParts(o, photos);
    MediaOfFirst(o, Sort(EtsyOrder(o.idLe), Eligible(o, photos)));
  }

  lemma PlanParts(o: Outside, photos: seq<Photo>)
    ensures var p, ordered := PlanOf(o, photos), Sort(EtsyOrder(o.idLe), Eligible(o, photos));
      && p.eligibleCount == |Eligible(o, photos)| && p.media == Media(o, Take(ordered, 20))
      && p.truncatedCount == if |ordered| > 20 then |ordered| - 20 else 0
  {
    hide Sort, Eligible, EtsyOrder, AddOtherIssues, UnsafeIssues, Media, Take, UsableIds, PrimaryCount;
  }

  lemma MediaOfFirst(o: Outside, ordered: seq<Photo>)
    ensures var media := Media(o, Take(ordered, 20));
      && |media| == (if |ordered| < 20 then |ordered| else 20)
      && forall i | 0 <= i < |media| :: media[i] == Item(o, ordered[i], i + 1)
  {
  }

  lemma SortedIsOrdered(o: Outside, photos: seq<Photo>)
    requires TotalPreorder(o.idLe)
    ensures Ordered(o, o.idLe, photos, Sort(EtsyOrder(o.idLe), Eligible(o, photos)))
  {
    var ordered := Sort(EtsyOrder(o.idLe), Eligible(o, photos));
    SortedEligible(o, photos);
    hide Sort, Eligible, TotalPreorder;
    forall p ensures multiset(ordered)[p] == if MayShow(o, p) then multiset(photos)[p] else 0 {
      EligibleMultiset(o, photos, p);
    }
    forall i, j | 0 <= i < j < |ordered| ensures ComesBefore(o.idLe, ordered[i], ordered[j]) {
      assert EtsyOrder(o.idLe)(ordered[i], ordered[j]);
    }
  }

  lemma ItemShows(o: Outside, p: Photo, rank: nat)
    ensures Shows(o, Item(o, p, rank), p, rank)
  {
  }

  /** The AI context lists the first of all photos in the one order, with the collation of the host. */
  lemma ContextShows(photos: seq<Photo>, maxPhotos: int, hostLe: IdOrder) returns (ordered: seq<Photo>)
    requires TotalPreorder(hostLe)
    ensures multiset(ordered) == multiset(photos) && |ordered| == |photos|
    ensures forall i, j | 0 <= i < j < |ordered| :: ComesBefore(hostLe, ordered[i], ordered[j])
    ensures var r := OrderAndCap(photos, maxPhotos, hostLe);
      && |r| == (if maxPhotos <= 0 then 0 else if maxPhotos < |photos| then maxPhotos else |photos|)
      && forall i | 0 <= i < |r| :: r[i] == PhotoReference(ordered[i].id, ordered[i].url)
  {
    OrdersAreTotal(hostLe);
    ordered := Sort(EtsyOrder(hostLe), photos);
    SortIsSorted(EtsyOrder(hostLe), photos);
    SameSize(ordered, photos);
    TwoSortsAreOne(photos, hostLe);
    forall i, j | 0 <= i < j < |ordered| ensures ComesBefore(hostLe, ordered[i], ordered[j]) {
      assert EtsyOrder(hostLe)(ordered[i], ordered[j]);
    }
    hide Sort, EtsyOrder, TotalPreorder;
  }

  // ----- what the issues say -----

  /** How many of the photos may be shown and are primary. */
  function ShowablePrimaries(o: Outside, photos: seq<Photo>): nat {
    if photos == [] then 0 else
      var last := photos[|photos| - 1];
      ShowablePrimaries(o, photos[..|photos| - 1]) + if MayShow(o, last) && last.isPrimary then 1 else 0
  }

  lemma PrimaryCountSnoc(s: seq<Photo>, x: Photo)
    ensures PrimaryCount(s + [x]) == PrimaryCount(s) + if x.isPrimary then 1 else 0
  {
    assert (s + [x])[..|s|] == s;
  }

  lemma {:induction false} ShowablePrimariesAre(o: Outside, photos: seq<Photo>)
    ensures PrimaryCount(Eligible(o, photos)) == ShowablePrimaries(o, photos)
    decreases |photos|
  {
    if photos != [] {
      var n := |photos| - 1;
      ShowablePrimariesAre(o, photos[..n]);
      PrimaryCountSnoc(Eligible(o, photos[..n]), photos[n]);
      assert Eligible(o, photos[..n]) + [] == Eligible(o, photos[..n]);
    }
  }

  /** A processed photo with a URL whose URLs may not be displayed. */
  predicate HasUnsafeUrl(o: Outside, p: Photo) {
    && p.processingStatus == "Ready" && !o.blank(p.url)
    && (!o.safe(p.url) || (p.thumbnailUrl != "" && !o.safe(p.thumbnailUrl)))
  }

  lemma {:induction false} UnsafeIssuesAre(o: Outside, photos: seq<Photo>, issue: Issue)
    ensures issue in UnsafeIssues(o, photos) <==> UnsafeReported(o, photos, issue)
    decreases |photos|
  {
    if photos != [] {
      var n := |photos| - 1;
      var rest := photos[..n];
      UnsafeIssuesAre(o, rest, issue);
      assert forall i | 0 <= i < n :: rest[i] == photos[i];
      if i :| 0 <= i < |rest| && HasUnsafeUrl(o, rest[i]) && issue == Issue(UnsafeImageUrl, Some(rest[i].id), None) {
        assert photos[i] == rest[i];
      }
    }
  }

  lemma {:induction false} AltIssuesAre(o: Outside, shown: seq<Photo>, issue: Issue)
    ensures issue in AltIssues(o, shown) <==>
      exists i :: 0 <= i < |shown| && AltIssueOf(o, shown[i], issue)
    decreases |shown|
  {
    if shown != [] {
      var n := |shown| - 1;
      var rest := shown[..n];
      AltIssuesAre(o, rest, issue);
      AltIssueOfOne(o, shown[n], issue);
      assert forall i | 0 <= i < n :: rest[i] == shown[i];
      if i :| 0 <= i < |rest| && AltIssueOf(o, rest[i], issue) {
        assert AltIssueOf(o, shown[i], issue);
      }
    }
  }

  predicate AltIssueOf(o: Outside, p: Photo, issue: Issue) {
    || (o.blank(p.altText) && issue == Issue(MissingAltText, Some(p.id), None))
    || (|p.altText| > 500 && issue == Issue(AltTextTooLong, Some(p.id), None))
  }

  lemma AltIssueOfOne(o: Outside, p: Photo, issue: Issue)
    ensures issue in WarningIssues(Warnings(o, p), p.id) <==> AltIssueOf(o, p, issue)
  {
    var issues := WarningIssues(Warnings(o, p), p.id);
    if o.blank(p.altText) {
      assert issues[0] == Issue(MissingAltText, Some(p.id), None);
      assert |p.altText| > 500 ==> issues[1] == Issue(AltTextTooLong, Some(p.id), None);
    } else {
      assert |p.altText| > 500 ==> issues[0] == Issue(AltTextTooLong, Some(p.id), None);
    }
  }

  lemma OneIssue(code: IssueCode, when: bool, n: nat, issue: Issue)
    ensures issue in Counted(code, when, n) <==> when && issue == Issue(code, None, Some(n))
  {
    if when {
      assert Counted(code, when, n)[0] == Issue(code, None, Some(n));
    }
  }

  /** The issues that follow the first two kinds, one by one. */
  lemma OtherIssuesAre(o: Outside, photos: seq<Photo>, issue: Issue)
    ensures var eligible := Eligible(o, photos);
      var sorted := Sort(EtsyOrder(o.idLe), eligible);
      issue in AddOtherIssues(o, photos, []) <==>
        || (|eligible| < |photos| && issue == Issue(ExcludedIncomplete, None, Some(|photos| - |eligible|)))
        || (PrimaryCount(eligible) == 0 && issue == Issue(MissingPrimary, None, None))
        || (PrimaryCount(eligible) > 1 && issue == Issue(MultiplePrimaries, None, Some(PrimaryCount(eligible))))
        || (|sorted| > 20 && issue == Issue(ImageLimit, None, Some(|sorted| - 20)))
        || issue in AltIssues(o, Take(sorted, 20))
  {
    var eligible := Eligible(o, photos);
    var primaries := PrimaryCount(eligible);
    var sorted := Sort(EtsyOrder(o.idLe), eligible);
    var excluded := if |photos| >= |eligible| then |photos| - |eligible| else 0;
    var truncated := if |sorted| > PHOTO_MAX then |sorted| - PHOTO_MAX else 0;
    var a := Counted(ExcludedIncomplete, excluded > 0, excluded);
    var b := if primaries == 0 then [Issue(MissingPrimary, None, None)] else [];
    var c := Counted(MultiplePrimaries, primaries > 1, primaries);
    var d := Counted(ImageLimit, truncated > 0, truncated);
    var e := AltIssues(o, Take(sorted, PHOTO_MAX));
    assert [] + a == a;
    assert AddOtherIssues(o, photos, []) == a + b + c + d + e;
    hide *;
    OneIssue(ExcludedIncomplete, excluded > 0, excluded, issue);
    OneIssue(MultiplePrimaries, primaries > 1, primaries, issue);
    OneIssue(ImageLimit, truncated > 0, truncated, issue);
  }

  predicate DuplicateReported(photos: seq<Photo>, issue: Issue) {
    && issue == Issue(DuplicatePhotoId, None, None)
    && ((exists i :: 0 <= i < |photos| && photos[i].id == "")
        || exists i, j :: 0 <= i < j < |photos| && photos[i].id == photos[j].id)
  }

  predicate UnsafeReported(o: Outside, photos: seq<Photo>, issue: Issue) {
    exists i ::
      0 <= i < |photos| && HasUnsafeUrl(o, photos[i]) && issue == Issue(UnsafeImageUrl, Some(photos[i].id), None)
  }

  predicate AltReported(o: Outside, ordered: seq<Photo>, issue: Issue) {
    exists i :: 0 <= i < |ordered| && i < 20 && AltIssueOf(o, ordered[i], issue)
  }

  /**
   Everything the plan reports, and nothing else: an empty or repeated id, each photo with an
   unsafe URL, how many photos are not shown for being unfit, no or several showable primaries,
   how many are past the twentieth, and each shown photo without alt text or with too long a one.
   */
  lemma IssuesMean(o: Outside, photos: seq<Photo>, ordered: seq<Photo>, issue: Issue)
    requires TotalPreorder(o.idLe) && ordered == Sort(EtsyOrder(o.idLe), Eligible(o, photos))
    ensures Ordered(o, o.idLe, photos, ordered) && |ordered| <= |photos|
    ensures issue in PlanOf(o, photos).issues <==>
      || DuplicateReported(photos, issue)
      || UnsafeReported(o, photos, issue)
      || (|ordered| < |photos| && issue == Issue(ExcludedIncomplete, None, Some(|photos| - |ordered|)))
      || (ShowablePrimaries(o, photos) == 0 && issue == Issue(MissingPrimary, None, None))
      || (ShowablePrimaries(o, photos) > 1
          && issue == Issue(MultiplePrimaries, None, Some(ShowablePrimaries(o, photos))))
      || (|ordered| > 20 && issue == Issue(ImageLimit, None, Some(|ordered| - 20)))
      || AltReported(o, ordered, issue)
  {
    hide *;
    SortedIsOrdered(o, photos);
    SortedEligible(o, photos);
    EligiblePlusExcluded(o, photos);
    ShowablePrimariesAre(o, photos);
    ThreeKindsOfIssues(o, photos, issue);
    OtherIssuesAre(o, photos, issue);
    UnsafeIssuesAre(o, photos, issue);
    ShownAltIssues(o, ordered, issue);
    DuplicateIssue(photos, issue);
  }

  lemma ThreeKindsOfIssues(o: Outside, photos: seq<Photo>, issue: Issue)
    ensures issue in PlanOf(o, photos).issues <==>
      || issue in (if UsableIds(photos) then [] else [Issue(DuplicatePhotoId, None, None)])
      || issue in UnsafeIssues(o, photos)
      || issue in AddOtherIssues(o, photos, [])
  {
    var a := if UsableIds(photos) then [] else [Issue(DuplicatePhotoId, None, None)];
    assert PlanOf(o, photos).issues == AddOtherIssues(o, photos, a + UnsafeIssues(o, photos)) by {
      hide AddOtherIssues, UnsafeIssues, UsableIds;
    }
    hide *;
    OtherIssuesFollow(o, photos, a + UnsafeIssues(o, photos));
  }

  lemma DuplicateIssue(photos: seq<Photo>, issue: Issue)
    ensures issue in (if UsableIds(photos) then [] else [Issue(DuplicatePhotoId, None, None)]) <==>
      DuplicateReported(photos, issue)
  {
  }

  lemma ShownAltIssues(o: Outside, ordered: seq<Photo>, issue: Issue)
    ensures issue in AltIssues(o, Take(ordered, 20)) <==> AltReported(o, ordered, issue)
  {
    var shown := Take(ordered, 20);
    AltIssuesAre(o, shown, issue);
    if i :| 0 <= i < |ordered| && i < 20 && AltIssueOf(o, ordered[i], issue) {
      assert shown[i] == ordered[i];
    }
  }

  /** Ready means: no empty or repeated id, and exactly one primary among the photos that may be shown. */
  lemma ReadyMeans(o: Outside, photos: seq<Photo>)
    ensures PlanOf(o, photos).ready <==>
      && (forall i | 0 <= i < |photos| :: photos[i].id != "")
      && (forall i, j | 0 <= i < j < |photos| :: photos[i].id != photos[j].id)
      && ShowablePrimaries(o, photos) == 1
  {
    ShowablePrimariesAre(o, photos);
  }

  // ----- and in which order -----

  function Rank(code: IssueCode): nat {
    match code
    case DuplicatePhotoId => 0
    case UnsafeImageUrl => 1
    case ExcludedIncomplete => 2
    case MissingPrimary => 3
    case MultiplePrimaries => 3
    case ImageLimit => 4
    case MissingAltText => 5
    case AltTextTooLong => 5
  }

  predicate RankedWithin(issues: seq<Issue>, lo: nat, hi: nat) {
    && (forall i | 0 <= i < |issues| :: lo <= Rank(issues[i].code) <= hi)
    && (forall i, j | 0 <= i < j < |issues| :: Rank(issues[i].code) <= Rank(issues[j].code))
  }

  lemma RankedConcat(a: seq<Issue>, b: seq<Issue>, top: nat, mid: nat, hi: nat)
    requires RankedWithin(a, 0, top) && RankedWithin(b, mid, hi) && top <= mid <= hi
    ensures RankedWithin(a + b, 0, hi)
  {
  }

  lemma {:induction false} UnsafeIssuesRank(o: Outside, photos: seq<Photo>)
    ensures RankedWithin(UnsafeIssues(o, photos), 1, 1)
    decreases |photos|
  {
    if photos != [] {
      UnsafeIssuesRank(o, photos[..|photos| - 1]);
    }
  }

  lemma {:induction false} AltIssuesRank(o: Outside, photos: seq<Photo>)
    ensures RankedWithin(AltIssues(o, photos), 5, 5)
    decreases |photos|
  {
    if photos != [] {
      AltIssuesRank(o, photos[..|photos| - 1]);
    }
  }

  /** At most one more issue, of no lower rank. */
  lemma RankedOneMore(a: seq<Issue>, when: bool, issue: Issue, mid: nat)
    requires RankedWithin(a, 0, mid) && mid <= Rank(issue.code)
    ensures RankedWithin(a + (if when then [issue] else []), 0, Rank(issue.code))
  {
    assert a + [] == a;
  }

  lemma OtherIssuesInOrder(o: Outside, photos: seq<Photo>, before: seq<Issue>)
    requires RankedWithin(before, 0, 1)
    ensures RankedWithin(AddOtherIssues(o, photos, before), 0, 5)
  {
    var eligible := Eligible(o, photos);
    var excluded := if |photos| >= |eligible| then |photos| - |eligible| else 0;
    var primaries := PrimaryCount(eligible);
    var sorted := Sort(EtsyOrder(o.idLe), eligible);
    var truncated := if |sorted| > PHOTO_MAX then |sorted| - PHOTO_MAX else 0;
    hide AltIssues, Sort, PrimaryCount, Eligible, EtsyOrder, Take, RankedWithin;
    var c := before + Counted(ExcludedIncomplete, excluded > 0, excluded);
    var d := c + (if primaries == 0 then [Issue(MissingPrimary, None, None)] else []);
    var e := d + Counted(MultiplePrimaries, primaries > 1, primaries);
    var f := e + Counted(ImageLimit, truncated > 0, truncated);
    RankedOneMore(before, excluded > 0, Issue(ExcludedIncomplete, None, Some(excluded)), 1);
    RankedOneMore(c, primaries == 0, Issue(MissingPrimary, None, None), 2);
    RankedOneMore(d, primaries > 1, Issue(MultiplePrimaries, None, Some(primaries)), 3);
    RankedOneMore(e, truncated > 0, Issue(ImageLimit, None, Some(truncated)), 3);
    AltIssuesRank(o, Take(sorted, PHOTO_MAX));
    RankedConcat(f, AltIssues(o, Take(sorted, PHOTO_MAX)), 4, 5, 5);
  }

  /**
   Issues come in the order in which the plan finds them: ids, URLs, unfit photos, primaries,
   the limit, alt texts.
   */
  lemma IssuesInOrder(o: Outside, photos: seq<Photo>)
    ensures RankedWithin(PlanOf(o, photos).issues, 0, 5)
  {
    var a := if UsableIds(photos) then [] else [Issue(DuplicatePhotoId, None, None)];
    UnsafeIssuesRank(o, photos);
    assert RankedWithin(a, 0, 0);
    hide AddOtherIssues, UsableIds, UnsafeIssues, RankedWithin, Media;
    RankedConcat(a, UnsafeIssues(o, photos), 0, 1, 1);
    OtherIssuesInOrder(o, photos, a + UnsafeIssues(o, photos));
  }
}
