/** A directory search with simple paged results (section 3 of RFC 2696). */
module PagedSearch {
  import opened Wrappers

  const MAX_DIRECTORY_SEARCH_ENTRIES: nat := 1_000_000
  const MAX_DIRECTORY_SEARCH_ENTRIES_LIMIT: nat := 10_000_000

  type Cookie = seq<bv8>

  /** An answer to one request; the cookie is missing when its control is. */
  datatype Reply<R> = Failed | Page(entries: seq<R>, cookie: Option<Cookie>)

  /** Any server: it may answer by request number and by the cookie it is sent. */
  type Server<!R> = (nat, Cookie) -> Reply<R>

  datatype SearchError = SearchFailed | NoCookie | TooManyPages | TooManyEntries | BadEntry

  /** Round up `a / b`. */
  function DivCeil(a: nat, b: nat): nat
    requires b > 0
  {
    (a + b - 1) / b
  }

  function MaxEntries(configured: Option<nat>): nat {
    var n := if configured.Some? then configured.value else MAX_DIRECTORY_SEARCH_ENTRIES;
    if n <= MAX_DIRECTORY_SEARCH_ENTRIES_LIMIT then n else MAX_DIRECTORY_SEARCH_ENTRIES_LIMIT
  }

  function MaxPages(pageSize: nat, maxEntries: nat): nat {
    if pageSize == 0 then 1 else DivCeil(maxEntries, pageSize)
  }

  // ----- What the server says -------------------------------------------

  /** The cookie sent with request `k`: the one the last reply gave. */
  function CookieAt<R>(server: Server<R>, pageSize: nat, k: nat): Cookie
    decreases k, 0
  {
    if k == 0 || pageSize == 0 then []
    else
      match ReplyAt(server, pageSize, k - 1)
      case Page(_, Some(cookie)) => cookie
      case _ => []
  }

  function ReplyAt<R>(server: Server<R>, pageSize: nat, k: nat): Reply<R>
    decreases k, 1
  {
    server(k, CookieAt(server, pageSize, k))
  }

  /** Reply `k` is a page, with a cookie if paging was asked for. */
  predicate PageOk<R>(server: Server<R>, pageSize: nat, k: nat) {
    var reply := ReplyAt(server, pageSize, k);
    reply.Page? && (pageSize > 0 ==> reply.cookie.Some?)
  }

  /** Page `k` says it is the last one. */
  predicate Ends<R>(server: Server<R>, pageSize: nat, k: nat)
    requires PageOk(server, pageSize, k)
  {
    pageSize == 0 || ReplyAt(server, pageSize, k).cookie == Some([])
  }

  function PageEntries<R>(server: Server<R>, pageSize: nat, k: nat): seq<R> {
    var reply := ReplyAt(server, pageSize, k);
    if reply.Page? then reply.entries else []
  }

  /** All entries of the first `n` pages, in order. */
  function EntriesOf<R>(server: Server<R>, pageSize: nat, n: nat): seq<R> {
    if n == 0 then [] else EntriesOf(server, pageSize, n - 1) + PageEntries(server, pageSize, n - 1)
  }

  predicate Maps<R, E>(entries: seq<R>, mapEntry: R -> Option<E>) {
    forall i | 0 <= i < |entries| :: mapEntry(entries[i]).Some?
  }

  function Mapped<R, E>(entries: seq<R>, mapEntry: R -> Option<E>): seq<E>
    requires Maps(entries, mapEntry)
  {
    seq(|entries|, i requires 0 <= i < |entries| => mapEntry(entries[i]).value)
  }

  /** The first `n` pages are good and none of them is the last. */
  ghost predicate Goes<R>(server: Server<R>, pageSize: nat, n: nat) {
    forall k: nat | k < n :: PageOk(server, pageSize, k) && !Ends(server, pageSize, k)
  }

  /** The server's result is its first `n` pages. */
  ghost predicate HasPages<R>(server: Server<R>, pageSize: nat, n: nat) {
    n >= 1 && Goes(server, pageSize, n - 1) && PageOk(server, pageSize, n - 1) && Ends(server, pageSize, n - 1)
  }

  /** The server's result is `n` pages within the bounds, and every entry maps. */
  ghost predicate Readable<R, E>(server: Server<R>, pageSize: nat, maxEntries: nat, mapEntry: R -> Option<E>, n: nat) {
    && HasPages(server, pageSize, n) && n <= MaxPages(pageSize, maxEntries)
    && |EntriesOf(server, pageSize, n)| <= maxEntries && Maps(EntriesOf(server, pageSize, n), mapEntry)
  }

  // ----- The implementation ---------------------------------------------

  /** The progress of one search against its bounds. */
  class Progress {
    var pages: nat
    var entries: nat
    const maxPages: nat
    const maxEntries: nat

    constructor (pageSize: nat, configured: Option<nat>)
      ensures maxEntries == MaxEntries(configured) && maxPages == MaxPages(pageSize, maxEntries)
      ensures pages == 0 && entries == 0
    {
      maxEntries := MaxEntries(configured);
      maxPages := MaxPages(pageSize, MaxEntries(configured));
      pages, entries := 0, 0;
    }

    method RecordPage(count: nat) returns (r: Result<(), SearchError>)
      modifies this
      ensures pages == old(pages) + 1
      ensures r == Err(TooManyPages) <==> pages > maxPages
      ensures r == Err(TooManyEntries) <==> pages <= maxPages && old(entries) + count > maxEntries
      ensures r.Err? ==> r.error == TooManyPages || r.error == TooManyEntries
      ensures r.Ok? ==> entries == old(entries) + count
    {
      pages := pages + 1;
      if pages > maxPages {
        return Err(TooManyPages);
      }
      entries := entries + count;
      if entries > maxEntries {
        return Err(TooManyEntries);
      }
      return Ok(());
    }
  }

  lemma {:induction false} EntriesGrow<R>(server: Server<R>, pageSize: nat, m: nat, n: nat)
    requires m <= n
    ensures EntriesOf(server, pageSize, m) <= EntriesOf(server, pageSize, n)
    decreases n
  {
    if m < n {
      EntriesGrow(server, pageSize, m, n - 1);
    }
  }

  /** Pages that go on come before the end of a readable result. */
  lemma ReadableGoesOn<R, E>(server: Server<R>, pageSize: nat, maxEntries: nat, mapEntry: R -> Option<E>, n: nat,
                             i: nat)
    requires Goes(server, pageSize, i) && Readable(server, pageSize, maxEntries, mapEntry, n)
    ensures i < n && PageOk(server, pageSize, i) && i < MaxPages(pageSize, maxEntries)
    ensures |EntriesOf(server, pageSize, i + 1)| <= maxEntries
    ensures Maps(PageEntries(server, pageSize, i), mapEntry)
  {
    EntriesGrow(server, pageSize, i + 1, n);
    var all := EntriesOf(server, pageSize, i + 1);
    var before := EntriesOf(server, pageSize, i);
    forall k | 0 <= k < |PageEntries(server, pageSize, i)|
      ensures mapEntry(PageEntries(server, pageSize, i)[k]).Some?
    {
      assert all[|before| + k] == PageEntries(server, pageSize, i)[k];
      assert EntriesOf(server, pageSize, n)[|before| + k] == all[|before| + k];
    }
  }

  /** Page `k` is accepted after the pages before it. */
  ghost predicate Continues<R, E>(server: Server<R>, pageSize: nat, maxEntries: nat, mapEntry: R -> Option<E>, k: nat) {
    && PageOk(server, pageSize, k) && k < MaxPages(pageSize, maxEntries)
    && |EntriesOf(server, pageSize, k + 1)| <= maxEntries && Maps(PageEntries(server, pageSize, k), mapEntry)
  }

  lemma StoppedIsUnreadable<R, E>(server: Server<R>, pageSize: nat, maxEntries: nat, mapEntry: R -> Option<E>, k: nat)
    requires Goes(server, pageSize, k)
    ensures !Continues(server, pageSize, maxEntries, mapEntry, k) ==>
              forall n: nat :: !Readable(server, pageSize, maxEntries, mapEntry, n)
  {
    forall n: nat | Readable(server, pageSize, maxEntries, mapEntry, n)
      ensures Continues(server, pageSize, maxEntries, mapEntry, k)
    {
      ReadableGoesOn(server, pageSize, maxEntries, mapEntry, n, k);
    }
  }

  /** Maps entries one after the other, stopping at the first that fails. */
  method MapEntries<R, E>(entries: seq<R>, mapEntry: R -> Option<E>) returns (r: Option<seq<E>>)
    ensures r.Some? <==> Maps(entries, mapEntry)
    ensures r.Some? ==> r.value == Mapped(entries, mapEntry)
  {
    var all: seq<E> := [];
    for i := 0 to |entries|
      invariant |all| == i
      invariant forall k | 0 <= k < i :: mapEntry(entries[k]) == Some(all[k])
    {
      match mapEntry(entries[i])
      case None => return None;
      case Some(e) => all := all + [e];
    }
    return Some(all);
  }

  lemma MappedAppend<R, E>(a: seq<R>, b: seq<R>, mapEntry: R -> Option<E>)
    requires Maps(a, mapEntry) && Maps(b, mapEntry)
    ensures Maps(a + b, mapEntry) && Mapped(a + b, mapEntry) == Mapped(a, mapEntry) + Mapped(b, mapEntry)
  {
  }

  /** What an error says of the last reply, or of the replies so far. */
  ghost predicate SearchErrorIsReal<R, E>(server: Server<R>, pageSize: nat, maxEntries: nat, mapEntry: R -> Option<E>,
                                          requests: nat, e: SearchError) {
    requests > 0 &&
    var last := ReplyAt(server, pageSize, requests - 1);
    match e
    case SearchFailed => last.Failed?
    case NoCookie => last.Page? && pageSize > 0 && last.cookie.None?
    case TooManyPages => requests > MaxPages(pageSize, maxEntries)
    case TooManyEntries => |EntriesOf(server, pageSize, requests)| > maxEntries
    case BadEntry => last.Page? && exists i :: 0 <= i < |last.entries| && mapEntry(last.entries[i]).None?
  }

  /** Against any server the search stops after at most one request more than
      the page bound, and it succeeds exactly when the server's result is
      readable, with all of its entries mapped in order. */
  method FetchSearchEntries<R, E>(server: Server<R>, pageSize: nat, configured: Option<nat>, mapEntry: R -> Option<E>)
    returns (r: Result<seq<E>, SearchError>, requests: nat)
    ensures requests <= MaxPages(pageSize, MaxEntries(configured)) + 1
    ensures r.Ok? ==>
              && Readable(server, pageSize, MaxEntries(configured), mapEntry, requests)
              && r.value == Mapped(EntriesOf(server, pageSize, requests), mapEntry)
    ensures r.Err? ==> forall n: nat :: !Readable(server, pageSize, MaxEntries(configured), mapEntry, n)
    ensures r.Err? ==> SearchErrorIsReal(server, pageSize, MaxEntries(configured), mapEntry, requests, r.error)
  {
    var maxEntries := MaxEntries(configured);
    var all: seq<E> := [];
    var cookie: Cookie := [];
    var progress := new Progress(pageSize, configured);
    requests := 0;
    while true
      invariant progress.maxEntries == maxEntries && progress.maxPages == MaxPages(pageSize, maxEntries)
      invariant requests == progress.pages <= progress.maxPages
      invariant cookie == CookieAt(server, pageSize, requests)
      invariant Goes(server, pageSize, requests)
      invariant progress.entries == |EntriesOf(server, pageSize, requests)| <= maxEntries
      invariant Maps(EntriesOf(server, pageSize, requests), mapEntry)
      invariant all == Mapped(EntriesOf(server, pageSize, requests), mapEntry)
      invariant fresh(progress)
      decreases progress.maxPages - requests
    {
      var reply := server(requests, cookie);
      ghost var k := requests;
      requests := requests + 1;
      assert reply == ReplyAt(server, pageSize, k);
      StoppedIsUnreadable(server, pageSize, maxEntries, mapEntry, k);
      if reply.Failed? {
        return Err(SearchFailed), requests;
      }
      if pageSize > 0 {
        if reply.cookie.None? {
          return Err(NoCookie), requests;
        }
        cookie := reply.cookie.value;
      }
      var recorded := progress.RecordPage(|reply.entries|);
      if recorded.Err? {
        return Err(recorded.error), requests;
      }
      var mapped := MapEntries(reply.entries, mapEntry);
      if mapped.None? {
        return Err(BadEntry), requests;
      }
      MappedAppend(EntriesOf(server, pageSize, k), reply.entries, mapEntry);
      all := all + mapped.value;
      if pageSize == 0 || cookie == [] {
        break;
      }
    }
    return Ok(all), requests;
  }

  // ----- Servers that fill their pages ----------------------------------

  /** The result is `n` pages of the requested size, the last possibly shorter. */
  ghost predicate Fills<R>(server: Server<R>, pageSize: nat, n: nat) {
    && pageSize > 0 && HasPages(server, pageSize, n)
    && (forall k: nat | k < n - 1 :: |PageEntries(server, pageSize, k)| == pageSize)
    && |PageEntries(server, pageSize, n - 1)| <= pageSize
  }

  lemma {:induction false} FullPages<R>(server: Server<R>, pageSize: nat, n: nat, m: nat)
    requires Fills(server, pageSize, n) && m < n
    ensures |EntriesOf(server, pageSize, m)| == m * pageSize
  {
    if m > 0 {
      FullPages(server, pageSize, n, m - 1);
    }
  }

  /** A count of pages fits exactly when the pages before its last hold less. */
  lemma DivCeilIff(n: nat, a: nat, b: nat)
    requires b > 0 && n > 0
    ensures n <= DivCeil(a, b) <==> (n - 1) * b < a
  {
    var q, r := (a + b - 1) / b, (a + b - 1) % b;
    assert a + b - 1 == q * b + r;
    if n <= q {
      assert n * b <= q * b;
    } else {
      assert (q + 1) * b <= n * b;
    }
  }

  lemma UnpagedIsOnePage<R>(server: Server<R>, n: nat)
    requires HasPages(server, 0, n)
    ensures n == 1
  {
    var good := PageOk(server, 0, 0);
  }

  /** What can be read, in numbers: the ceiling is the configured one up to ten
      million, and one million without one; it holds for the entries, and the
      full pages before the last one stay below it. */
  lemma ReadableIff<R, E>(server: Server<R>, pageSize: nat, configured: Option<nat>, mapEntry: R -> Option<E>, n: nat)
    ensures var ceiling := if configured.None? then 1_000_000
                           else if configured.value < 10_000_000 then configured.value else 10_000_000;
            Readable(server, pageSize, MaxEntries(configured), mapEntry, n) <==>
            && HasPages(server, pageSize, n) && (pageSize == 0 || (n - 1) * pageSize < ceiling)
            && |EntriesOf(server, pageSize, n)| <= ceiling && Maps(EntriesOf(server, pageSize, n), mapEntry)
  {
    if HasPages(server, pageSize, n) {
      if pageSize == 0 {
        UnpagedIsOnePage(server, n);
      } else {
        DivCeilIff(n, MaxEntries(configured), pageSize);
      }
    }
  }

  /** The server's result does not depend on how far the search looks. */
  lemma SamePages<R>(server: Server<R>, pageSize: nat, m: nat, n: nat)
    requires HasPages(server, pageSize, m) && HasPages(server, pageSize, n)
    ensures m == n
  {
    assert m < n ==> m - 1 < n - 1;
    assert n < m ==> n - 1 < m - 1;
  }

  /** A server that fills every page but the last and holds no more than the
      ceiling is read completely, unless its last page is empty and it holds
      exactly the ceiling. */
  lemma FilledIsReadIff<R, E>(server: Server<R>, pageSize: nat, maxEntries: nat, mapEntry: R -> Option<E>, n: nat)
    requires Fills(server, pageSize, n) && Maps(EntriesOf(server, pageSize, n), mapEntry)
    requires |EntriesOf(server, pageSize, n)| <= maxEntries
    ensures (exists m: nat :: Readable(server, pageSize, maxEntries, mapEntry, m)) <==>
              !(PageEntries(server, pageSize, n - 1) == [] && |EntriesOf(server, pageSize, n)| == maxEntries)
  {
    FullPages(server, pageSize, n, n - 1);
    DivCeilIff(n, maxEntries, pageSize);
    assert n <= MaxPages(pageSize, maxEntries) <==> |EntriesOf(server, pageSize, n - 1)| < maxEntries;
    if n <= MaxPages(pageSize, maxEntries) {
      assert Readable(server, pageSize, maxEntries, mapEntry, n);
    } else {
      forall m: nat | Readable(server, pageSize, maxEntries, mapEntry, m)
        ensures m == n
      {
        SamePages(server, pageSize, m, n);
      }
    }
  }

  function AsIs(i: nat): Option<nat> {
    Some(i)
  }

  /** `n` full pages and then an empty one. */
  function TrailingEmptyPage(pageSize: nat, n: nat): Server<nat> {
    (k: nat, cookie: Cookie) =>
      if k < n then Page(seq(pageSize, i => i), Some([1])) else Page([], Some([]))
  }

  lemma TrailingReply(pageSize: nat, n: nat, k: nat)
    ensures ReplyAt(TrailingEmptyPage(pageSize, n), pageSize, k)
         == if k < n then Page(seq(pageSize, i => i), Some([1])) else Page([], Some([]))
  {
  }

  lemma TrailingFills(pageSize: nat, n: nat)
    requires pageSize > 0
    ensures Fills(TrailingEmptyPage(pageSize, n), pageSize, n + 1)
    ensures |EntriesOf(TrailingEmptyPage(pageSize, n), pageSize, n + 1)| == n * pageSize
  {
    var server := TrailingEmptyPage(pageSize, n);
    forall k: nat | k <= n
      ensures PageOk(server, pageSize, k) && (Ends(server, pageSize, k) <==> k == n)
      ensures |PageEntries(server, pageSize, k)| == if k < n then pageSize else 0
    {
      TrailingReply(pageSize, n, k);
    }
    FullPages(server, pageSize, n + 1, n);
  }

  /** The server fills its pages within the ceiling, and the search still refuses
      it. */
  ghost predicate RefusedThoughFilled(server: Server<nat>, pageSize: nat, maxEntries: nat, n: nat) {
    && Fills(server, pageSize, n) && |EntriesOf(server, pageSize, n)| <= maxEntries
    && forall m: nat :: !Readable(server, pageSize, maxEntries, AsIs, m)
  }

  lemma RefusedDivides(server: Server<nat>, pageSize: nat, maxEntries: nat, n: nat)
    requires RefusedThoughFilled(server, pageSize, maxEntries, n)
    ensures maxEntries % pageSize == 0
  {
    FilledIsReadIff(server, pageSize, maxEntries, AsIs, n);
    FullPages(server, pageSize, n, n - 1);
    assert EntriesOf(server, pageSize, n) == EntriesOf(server, pageSize, n - 1);
    MultipleDivides(n - 1, pageSize);
  }

  lemma MultipleDivides(q: nat, b: nat)
    requires b > 0
    ensures (q * b) % b == 0
  {
    var a := q * b;
    DivisionHolds(a, b);
    NoRemainder(q, a / b, b, a % b);
  }

  lemma DivisionHolds(a: nat, b: nat)
    requires b > 0
    ensures a == a / b * b + a % b && 0 <= a % b < b
  {
  }

  lemma NoRemainder(q: nat, d: nat, b: nat, r: nat)
    requires q * b == d * b + r && r < b
    ensures r == 0
  {
    if q > d {
      NextMultiple(d, q, b);
    } else if q < d {
      NextMultiple(q, d, b);
    }
  }

  lemma {:induction false} NextMultiple(d: nat, q: nat, b: nat)
    requires d < q
    ensures q * b >= d * b + b
  {
    if d + 1 < q {
      NextMultiple(d, q - 1, b);
    }
  }

  lemma DividesIsMultiple(a: nat, b: nat)
    requires b > 0 && a % b == 0
    ensures a / b * b == a
  {
  }

  /** Some server that fills its pages within the configured ceiling is refused
      exactly when the page size divides the ceiling. */
  lemma SomeFilledIsRefusedIff(pageSize: nat, configured: Option<nat>)
    requires pageSize > 0
    ensures (exists server, n :: RefusedThoughFilled(server, pageSize, MaxEntries(configured), n)) <==>
              MaxEntries(configured) % pageSize == 0
  {
    var max := MaxEntries(configured);
    if max % pageSize == 0 {
      var n := max / pageSize;
      var server := TrailingEmptyPage(pageSize, n);
      DividesIsMultiple(max, pageSize);
      TrailingFills(pageSize, n);
      TrailingReply(pageSize, n, n);
      FilledIsReadIff(server, pageSize, max, AsIs, n + 1);
      assert RefusedThoughFilled(server, pageSize, max, n + 1);
    }
    if server, n :| RefusedThoughFilled(server, pageSize, max, n) {
      RefusedDivides(server, pageSize, max, n);
    }
  }
}
