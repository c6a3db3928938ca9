/** Reading every page of a listing: all of it, or an error. */
module Pagination {
  import opened Prelude

  datatype Item = Item(id: string, body: string)

  /** A JavaScript number or a missing value: only whole totals are of use. */
  datatype Total = Whole(value: int) | NotWhole

  datatype Page = Page(page: int, total: Total, items: seq<Item>)

  /**
   What a read of each page brings, or None when it fails; each page is read at most once, so the
   server may change in between.
   */
  type Server = nat -> Option<Page>

  datatype Error = ReadFailed | Incomplete | DuplicateItem | Inconsistent

  function TotalOf(read: Server): int {
    if read(1).Some? && read(1).value.total.Whole? then read(1).value.total.value else 0
  }

  function Concat(read: Server, n: nat): seq<Item> {
    if n == 0 then [] else Concat(read, n - 1) + if read(n).Some? then read(n).value.items else []
  }

  predicate DistinctIds(items: seq<Item>) {
    forall i, j | 0 <= i < j < |items| :: items[i].id != items[j].id
  }

  /** Page `p` answers for itself and repeats the total of the first page. */
  predicate Fits(read: Server, p: nat) {
    && read(p).Some? && read(p).value.page == p
    && read(p).value.total == Whole(TotalOf(read)) && 0 <= TotalOf(read)
  }

  /**
   The first `n` pages fit together: no id twice, never more than the total, and more to read
   before page `n` but not after an empty page.
   */
  predicate Consistent(read: Server, n: nat) {
    && (forall p | 1 <= p <= n :: Fits(read, p))
    && DistinctIds(Concat(read, n))
    && (n > 0 ==> |Concat(read, n)| <= TotalOf(read))
    && (forall p | 1 <= p <= n :: |Concat(read, p)| == TotalOf(read) ==> p == n)
    && (forall p | 1 <= p <= n && Fits(read, p) :: read(p).value.items == [] ==> |Concat(read, p)| == TotalOf(read))
  }

  /** The first `n` pages are the whole listing. */
  predicate Complete(read: Server, n: nat) {
    n >= 1 && Consistent(read, n) && |Concat(read, n)| == TotalOf(read)
  }

  lemma {:induction false} ConcatIsPrefix(read: Server, m: nat, n: nat)
    requires m <= n
    ensures Concat(read, m) <= Concat(read, n)
    decreases n
  {
    if m < n {
      ConcatIsPrefix(read, m, n - 1);
    }
  }

  /** Consistency only ever gets lost: a consistent number of pages has consistent beginnings. */
  lemma ConsistentBefore(read: Server, m: nat, n: nat)
    requires 1 <= m <= n && Consistent(read, n)
    ensures Consistent(read, m)
  {
    ConcatIsPrefix(read, m, n);
    forall p | 1 <= p <= m ensures |Concat(read, p)| == TotalOf(read) ==> p == m {
      ConcatIsPrefix(read, p, m);
    }
  }

  /** When the pages before `p` fit but fall short, and page `p` does not fit, there is no listing. */
  lemma NoListing(read: Server, p: nat)
    requires p >= 1 && !Consistent(read, p)
    requires p > 1 ==> |Concat(read, p - 1)| < TotalOf(read)
    ensures forall n :: !Complete(read, n)
  {
    forall n: nat ensures !Complete(read, n) {
      if Complete(read, n) {
        if n >= p {
          ConsistentBefore(read, p, n);
        } else {
          ConcatIsPrefix(read, n, p - 1);
        }
      }
    }
  }

  /** One more page that fits, is new and does not overshoot. */
  lemma OneMorePage(read: Server, p: nat)
    requires p >= 1 && Consistent(read, p - 1) && Fits(read, p)
    requires p > 1 ==> |Concat(read, p - 1)| < TotalOf(read)
    requires DistinctIds(Concat(read, p)) && |Concat(read, p)| <= TotalOf(read)
    requires read(p).value.items == [] ==> |Concat(read, p)| == TotalOf(read)
    ensures Consistent(read, p)
  {
    forall m | 1 <= m <= p ensures |Concat(read, m)| == TotalOf(read) ==> m == p {
      if m < p {
        ConcatIsPrefix(read, m, p - 1);
      }
    }
  }

  ghost predicate IdsOf(ids: set<string>, items: seq<Item>) {
    forall x :: x in ids <==> exists i :: 0 <= i < |items| && items[i].id == x
  }

  lemma IdsOfOneMore(ids: set<string>, items: seq<Item>, item: Item)
    requires IdsOf(ids, items)
    ensures IdsOf(ids + {item.id}, items + [item])
  {
    var longer := items + [item];
    forall x ensures x in ids + {item.id} <==> exists i :: 0 <= i < |longer| && longer[i].id == x {
      if x in ids {
        var i :| 0 <= i < |items| && items[i].id == x;
        assert longer[i].id == x;
      } else if x == item.id {
        assert longer[|items|].id == x;
      }
    }
  }

  /** The inner loop: append a page's items while their ids are new. */
  method AppendNew(items: seq<Item>, ids: set<string>, more: seq<Item>)
    returns (ok: bool, newItems: seq<Item>, newIds: set<string>)
    requires IdsOf(ids, items) && DistinctIds(items)
    ensures ok <==> DistinctIds(items + more)
    ensures ok ==> newItems == items + more && IdsOf(newIds, newItems)
  {
    newItems, newIds := items, ids;
    for i := 0 to |more|
      invariant newItems == items + more[..i]
      invariant IdsOf(newIds, newItems)
      invariant DistinctIds(newItems)
    {
      var item := more[i];
      if item.id in newIds {
        ghost var j :| 0 <= j < |newItems| && newItems[j].id == item.id;
        assert (items + more)[j] == newItems[j] && (items + more)[|items| + i] == item;
        return false, newItems, newIds;
      }
      IdsOfOneMore(newIds, newItems, item);
      newIds := newIds + {item.id};
      newItems := newItems + [item];
    }
    assert more[..|more|] == more;
    ok := true;
  }

  /** What is wrong with page `p` when `allPages` throws `error` there: the checks in their order. */
  predicate Blames(read: Server, p: nat, error: Error)
    requires p >= 1
  {
    match error
    case ReadFailed => read(p).None?
    case Incomplete =>
      && read(p).Some?
      && (!Fits(read, p) || (read(p).value.items == [] && |Concat(read, p)| < TotalOf(read)))
    case DuplicateItem => Fits(read, p) && !DistinctIds(Concat(read, p))
    case Inconsistent => Fits(read, p) && DistinctIds(Concat(read, p)) && |Concat(read, p)| > TotalOf(read)
  }

  /** `allPages`: exactly the listing whose pages fit together, after at most one read per item. */
  method AllPages(read: Server) returns (r: Result<seq<Item>, Error>, pages: nat)
    ensures r.Ok? ==> Complete(read, pages) && r.value == Concat(read, pages)
    ensures r.Ok? <==> exists n :: Complete(read, n)
    ensures r.Err? ==> pages >= 1 && Consistent(read, pages - 1) && Blames(read, pages, r.error)
    ensures 1 <= pages <= if TotalOf(read) > 1 then TotalOf(read) else 1
  {
    hide Consistent;
    var items: seq<Item> := [];
    var ids: set<string> := {};
    var total: Option<Total> := None;
    pages := 0;
    NoPagesAreConsistent(read);
    while true
      invariant total.None? <==> pages == 0
      invariant total.Some? ==> total.value == Whole(TotalOf(read))
      invariant items == Concat(read, pages) && Consistent(read, pages) && DistinctIds(items) && IdsOf(ids, items)
      invariant pages > 0 ==> pages <= |items| < TotalOf(read)
      decreases if pages == 0 then 1 else 0, TotalOf(read) - |items|
    {
      pages := pages + 1;
      var result := read(pages);
      if result.None? {
        PageMustFit(read, pages);
        return Err(ReadFailed), pages;
      }
      if total.None? {
        total := Some(result.value.total);
      }
      if result.value.page != pages || Some(result.value.total) != total || total.value.NotWhole?
        || total.value.value < 0
         || (result.value.items == [] && |items| < total.value.value) {
        PageMustFit(read, pages);
        return Err(Incomplete), pages;
      }
      var ok;
      ok, items, ids := AppendNew(items, ids, result.value.items);
      if !ok {
        PageMustFit(read, pages);
        return Err(DuplicateItem), pages;
      }
      if |items| > total.value.value {
        PageMustFit(read, pages);
        return Err(Inconsistent), pages;
      }
      OneMorePage(read, pages);
      if |items| == total.value.value {
        return Ok(items), pages;
      }
    }
  }

  lemma NoPagesAreConsistent(read: Server)
    ensures Consistent(read, 0)
  {
  }

  /** What page `p` must be for any listing to exist once the pages before fall short. */
  lemma PageMustFit(read: Server, p: nat)
    requires p >= 1 && (p > 1 ==> |Concat(read, p - 1)| < TotalOf(read))
    ensures (exists n :: Complete(read, n)) ==>
      && Fits(read, p) && DistinctIds(Concat(read, p)) && |Concat(read, p)| <= TotalOf(read)
      && (read(p).value.items == [] ==> |Concat(read, p - 1)| == TotalOf(read))
  {
    if !Consistent(read, p) {
      NoListing(read, p);
    }
  }

  // ----- an honest server -----

  /** How many of `total` items the first `p` pages cover. */
  function Upto(total: nat, size: nat, p: nat): (r: nat)
    ensures r <= total
  {
    if p == 0 then 0
    else if Upto(total, size, p - 1) + size < total then Upto(total, size, p - 1) + size else total
  }

  /** Page `p` of a list, `size` items a page. */
  function Slice(list: seq<Item>, size: nat, p: nat): seq<Item>
    requires p >= 1
  {
    UptoIs(|list|, size, p);
    list[Upto(|list|, size, p - 1)..Upto(|list|, size, p)]
  }

  /** A server that pages a fixed list, `size` items a page. */
  ghost predicate Pages(read: Server, list: seq<Item>, size: nat) {
    size > 0 && forall p: nat | p >= 1 ::
      read(p) == Some(Page(p, Whole(|list|), Slice(list, size, p)))
  }

  lemma {:induction false} HonestConcat(read: Server, list: seq<Item>, size: nat, n: nat)
    requires Pages(read, list, size)
    ensures Concat(read, n) == list[..Upto(|list|, size, n)]
  {
    hide Upto;
    UptoIs(|list|, size, n);
    if n > 0 {
      HonestConcat(read, list, size, n - 1);
      Joins(list, Upto(|list|, size, n - 1), Upto(|list|, size, n));
    }
  }

  lemma UptoIs(total: nat, size: nat, p: nat)
    ensures p == 0 ==> Upto(total, size, p) == 0
    ensures p > 0 ==> var before := Upto(total, size, p - 1);
      Upto(total, size, p) == if before + size < total then before + size else total
  {
  }

  lemma Joins(list: seq<Item>, i: nat, j: nat)
    requires i <= j <= |list|
    ensures list[..i] + list[i..j] == list[..j]
  {
  }

  /** How many pages a listing of `total` items has, `size` items a page, and never less than one. */
  function PageCount(total: nat, size: nat): (r: nat)
    requires size > 0
    ensures r >= 1
  {
    if total <= size then 1 else 1 + PageCount(total - size, size)
  }

  /** Only the last page reaches the end of the list. */
  lemma {:induction false} LastPageReachesEnd(list: seq<Item>, size: nat, p: nat)
    requires size > 0 && p <= PageCount(|list|, size)
    ensures if p == PageCount(|list|, size) then Upto(|list|, size, p) == |list|
      else
        && PageCount(|list| - Upto(|list|, size, p), size) == PageCount(|list|, size) - p
        && (p > 0 ==> Upto(|list|, size, p) < |list|)
  {
    hide Upto, PageCount;
    UptoIs(|list|, size, p);
    if p > 0 {
      LastPageReachesEnd(list, size, p - 1);
      PageCountIs(|list| - Upto(|list|, size, p - 1), size);
    }
  }

  lemma PageCountIs(total: nat, size: nat)
    requires size > 0
    ensures PageCount(total, size) == if total <= size then 1 else 1 + PageCount(total - size, size)
  {
  }

  /** Read from an honest server, the whole list is what comes back. */
  lemma HonestIsComplete(read: Server, list: seq<Item>, size: nat)
    requires Pages(read, list, size) && DistinctIds(list)
    ensures Complete(read, PageCount(|list|, size)) && Concat(read, PageCount(|list|, size)) == list
  {
    hide Concat, Upto, PageCount, DistinctIds;
    var n := PageCount(|list|, size);
    forall p | 1 <= p <= n
      ensures Fits(read, p) && (|Concat(read, p)| == |list| <==> p == n)
      ensures Fits(read, p) && read(p).value.items == [] ==> |Concat(read, p)| == |list|
    {
      HonestPage(read, list, size, p);
    }
    HonestPage(read, list, size, n);
    assert list[..|list|] == list;
  }

  lemma HonestPage(read: Server, list: seq<Item>, size: nat, p: nat)
    requires Pages(read, list, size) && 1 <= p <= PageCount(|list|, size)
    ensures Fits(read, p) && TotalOf(read) == |list|
    ensures Concat(read, p) == list[..Upto(|list|, size, p)]
    ensures |Concat(read, p)| == |list| <==> p == PageCount(|list|, size)
    ensures read(p).value.items == [] ==> |Concat(read, p)| == |list|
  {
    hide Concat, PageCount;
    HonestConcat(read, list, size, p);
    LastPageReachesEnd(list, size, p);
    LastPageReachesEnd(list, size, p - 1);
    assert read(1).value.total == Whole(|list|);
  }

  lemma CompleteIsUnique(read: Server, m: nat, n: nat)
    requires Complete(read, m) && Complete(read, n)
    ensures m == n
  {
    assert m <= n ==> m == n;
    assert n <= m ==> m == n;
  }

  /** `allPages` against an honest server. */
  method ReadHonest(read: Server, list: seq<Item>, size: nat) returns (r: Result<seq<Item>, Error>, pages: nat)
    requires Pages(read, list, size) && DistinctIds(list)
    ensures r == Ok(list) && pages == PageCount(|list|, size)
  {
    HonestIsComplete(read, list, size);
    r, pages := AllPages(read);
    CompleteIsUnique(read, pages, PageCount(|list|, size));
  }

  // ----- a server whose list changes -----

  /**
   A server that pages the list of the moment: `lists(p)` is in force when page `p` is read.
   Its total never changes, so no check of `allPages` can tell.
   */
  ghost predicate ServesHistory(read: Server, lists: nat -> seq<Item>, size: nat, total: nat) {
    && size > 0
    && forall p: nat | p >= 1 ::
      && |lists(p)| == total && DistinctIds(lists(p))
      && read(p) == Some(Page(p, Whole(total), Slice(lists(p), size, p)))
  }

  /** What `allPages` returns after `n` reads was in force as a whole at one of these reads. */
  ghost predicate WasInForce(read: Server, lists: nat -> seq<Item>, n: nat) {
    exists t :: 1 <= t <= n && Concat(read, n) == lists(t)
  }

  /** A list of one page is returned as it was when that page was read. */
  lemma OnePageWasInForce(read: Server, lists: nat -> seq<Item>, size: nat, total: nat, n: nat)
    requires ServesHistory(read, lists, size, total) && total <= size && Complete(read, n)
    ensures n == 1 && WasInForce(read, lists, n)
  {
    UptoIs(total, size, 0);
    UptoIs(total, size, 1);
    assert Slice(lists(1), size, 1) == lists(1);
    assert Concat(read, 1) == Concat(read, 0) + lists(1) == lists(1);
    assert n >= 1 && |Concat(read, 1)| == TotalOf(read);
  }

  /** An endless supply of items, no two with the same id. */
  function Nth(i: nat): Item {
    Item(seq(i, _ => 'x'), "")
  }

  /** `total` items, leaving out the one at `gap`. */
  function AllBut(gap: nat, total: nat): (list: seq<Item>)
    ensures |list| == total
  {
    seq(total, i requires 0 <= i < total => Nth(if i < gap then i else i + 1))
  }

  lemma NthIsInjective(i: nat, j: nat)
    requires i != j
    ensures Nth(i).id != Nth(j).id
  {
    assert |Nth(i).id| == i && |Nth(j).id| == j;
  }

  lemma AllButIsDistinct(gap: nat, total: nat)
    ensures DistinctIds(AllBut(gap, total))
  {
    var list := AllBut(gap, total);
    forall i, j | 0 <= i < j < total ensures list[i].id != list[j].id {
      NthIsInjective(if i < gap then i else i + 1, if j < gap then j else j + 1);
    }
  }

  lemma AllButDiffers(a: nat, b: nat, total: nat)
    requires a < b && a < total
    ensures AllBut(a, total) != AllBut(b, total)
  {
    NthIsInjective(a, a + 1);
    assert AllBut(a, total)[a] == Nth(a + 1) && AllBut(b, total)[a] == Nth(a);
  }

  lemma FirstSlicesAgree(size: nat, total: nat)
    requires 0 < size < total
    ensures Slice(AllBut(total, total), size, 1) == Slice(AllBut(size, total), size, 1)
  {
    UptoIs(total, size, 0);
    UptoIs(total, size, 1);
  }

  /** Pages after the first `size` items cannot tell which of the items before is left out. */
  lemma LaterSlicesAgree(size: nat, total: nat, p: nat)
    requires 0 < size < total && p > 1
    ensures Slice(AllBut(0, total), size, p) == Slice(AllBut(size, total), size, p)
  {
    UptoIs(total, size, 0);
    UptoIs(total, size, 1);
    UptoGrows(total, size, 1, p - 1);
  }

  lemma {:induction false} UptoGrows(total: nat, size: nat, p: nat, q: nat)
    requires p <= q
    ensures Upto(total, size, p) <= Upto(total, size, q)
    decreases q
  {
    hide Upto;
    if p < q {
      UptoIs(total, size, q);
      UptoGrows(total, size, p, q - 1);
    }
  }

  /**
   With two pages or more, one change between the first two reads is enough: the first item
   goes and one is added at the end.  What is returned lacks an item that was always
   there, and differs from the list before and from the list after.
   */
  lemma ChangeWithSameTotalGoesUnseen(size: nat, total: nat) returns (read: Server, lists: nat -> seq<Item>, n: nat)
    requires 0 < size < total
    ensures ServesHistory(read, lists, size, total) && Complete(read, n)
    ensures forall p: nat :: lists(p) == if p <= 1 then AllBut(total, total) else AllBut(0, total)
    ensures Concat(read, n) == AllBut(size, total)
    ensures forall t :: Concat(read, n) != lists(t)
  {
    hide AllBut, Slice, DistinctIds, ServesHistory, Complete, Concat;
    read, lists := PagesOf(AllBut(size, total), size), p => if p <= 1 then AllBut(total, total) else AllBut(0, total);
    n := PageCount(total, size);
    OneChangeIsHistory(read, lists, size, total);
    AllButIsDistinct(size, total);
    HonestIsComplete(read, AllBut(size, total), size);
    AllButDiffers(0, size, total);
    AllButDiffers(size, total, total);
  }

  /** An honest server of `list`. */
  function PagesOf(list: seq<Item>, size: nat): (read: Server)
    requires size > 0
    ensures Pages(read, list, size)
  {
    (p: nat) => if p == 0 then None else Some(Page(p, Whole(|list|), Slice(list, size, p)))
  }

  /** An honest server of the mixture is just what the changing server looks like. */
  lemma OneChangeIsHistory(read: Server, lists: nat -> seq<Item>, size: nat, total: nat)
    requires 0 < size < total && Pages(read, AllBut(size, total), size)
    requires forall p: nat :: lists(p) == if p <= 1 then AllBut(total, total) else AllBut(0, total)
    ensures ServesHistory(read, lists, size, total)
  {
    hide AllBut, Slice, DistinctIds;
    forall p: nat | p >= 1
      ensures |lists(p)| == total && DistinctIds(lists(p))
        && Slice(lists(p), size, p) == Slice(AllBut(size, total), size, p)
    {
      AllButIsDistinct(0, total);
      AllButIsDistinct(total, total);
      if p == 1 {
        FirstSlicesAgree(size, total);
      } else {
        LaterSlicesAgree(size, total, p);
      }
    }
  }

  /**
   Whatever `allPages` returns from a server with a changing list was that list at one of
   the reads, in every history, exactly when the list fits on one page.
   */
  lemma WasInForceIffOnePage(size: nat, total: nat)
    requires size > 0
    ensures total <= size <==>
      forall read: Server, lists: nat -> seq<Item>, n: nat
        | ServesHistory(read, lists, size, total) && Complete(read, n) ::
        WasInForce(read, lists, n)
  {
    if total <= size {
      forall read: Server, lists: nat -> seq<Item>, n: nat
        | ServesHistory(read, lists, size, total) && Complete(read, n)
        ensures WasInForce(read, lists, n)
      {
        OnePageWasInForce(read, lists, size, total, n);
      }
    } else {
      var read, lists, n := ChangeWithSameTotalGoesUnseen(size, total);
      assert !WasInForce(read, lists, n);
    }
  }
}
