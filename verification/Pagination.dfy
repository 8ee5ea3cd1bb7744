/** The journey's search for a created resource through the pages of a listing. */
module Pagination {

  /** A page: the identifiers it lists and the cursor of the next page, empty on the last one. */
  datatype Page = Page(items: seq<string>, next: string)

  /** `cursors` are the cursors of all pages of the listing, in order.  The first request carries
      none, so the first cursor is empty and the others are not. */
  predicate IsListing(serve: string -> Page, cursors: seq<string>) {
    && cursors != [] && cursors[0] == ""
    && (forall k :: 0 < k < |cursors| ==> cursors[k] != "")
    && (forall k :: 0 <= k < |cursors| - 1 ==> serve(cursors[k]).next == cursors[k + 1])
    && serve(cursors[|cursors| - 1]).next == ""
  }

  predicate Lists(serve: string -> Page, cursor: string, want: string) {
    want in serve(cursor).items
  }

  /** A listing that ends never serves the same page twice. */
  lemma {:induction false} ListingIsAcyclic(serve: string -> Page, cursors: seq<string>, i: nat, j: nat)
    requires IsListing(serve, cursors) && i < j < |cursors|
    ensures cursors[i] != cursors[j]
    decreases |cursors| - j
  {
    if cursors[i] == cursors[j] {
      assert serve(cursors[i]).next == cursors[i + 1];
      if j < |cursors| - 1 {
        ListingIsAcyclic(serve, cursors, i + 1, j + 1);
      }
    }
  }

  /** A cursor chain determines the listing: there is one way to follow it to its end. */
  lemma {:induction false} ListingIsUnique(serve: string -> Page, a: seq<string>, b: seq<string>, k: nat)
    requires IsListing(serve, a) && IsListing(serve, b) && k < |a|
    ensures k < |b| && a[k] == b[k]
  {
    if k == 0 {
    } else {
      ListingIsUnique(serve, a, b, k - 1);
      assert serve(a[k - 1]).next == a[k - 1 + 1];
    }
  }

  /** Requests page after page until one lists `want` or there is none left. */
  method FindListed(serve: string -> Page, want: string, ghost cursors: seq<string>)
    returns (found: bool, requested: seq<string>)
    requires IsListing(serve, cursors)
    ensures found <==> exists k :: 0 <= k < |cursors| && Lists(serve, cursors[k], want)
    ensures requested <= cursors && requested != []
    ensures forall k :: 0 <= k < |requested| - 1 ==> !Lists(serve, requested[k], want)
    ensures found <==> Lists(serve, requested[|requested| - 1], want)
    ensures !found ==> requested == cursors
    ensures forall i, j :: 0 <= i < j < |requested| ==> requested[i] != requested[j]
  {
    forall i, j | 0 <= i < j < |cursors| ensures cursors[i] != cursors[j] {
      ListingIsAcyclic(serve, cursors, i, j);
    }
    var cursor := "";
    requested := [];
    while true
      invariant |requested| < |cursors| && requested == cursors[..|requested|]
      invariant cursor == cursors[|requested|]
      invariant forall k :: 0 <= k < |requested| ==> !Lists(serve, requested[k], want)
      decreases |cursors| - |requested|
    {
      requested := requested + [cursor];
      var page := serve(cursor);
      for i := 0 to |page.items|
        invariant forall j :: 0 <= j < i ==> page.items[j] != want
      {
        if page.items[i] == want {
          assert Lists(serve, cursors[|requested| - 1], want);
          return true, requested;
        }
      }
      assert !Lists(serve, cursor, want);
      assert |requested| < |cursors| ==> serve(cursors[|requested| - 1]).next == cursors[|requested| - 1 + 1];
      cursor := page.next;
      if cursor == "" {
        break;
      }
    }
    found := false;
  }
}
