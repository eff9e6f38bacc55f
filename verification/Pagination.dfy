/** Following an upstream's pages of tools up to the caps (internal/mcp/upstream.go). */
module Pagination {
  import opened Results

  /** One answer: some tools, a cursor for the next page ("" at the end), and the bytes it took. */
  datatype Page<T> = Page(tools: seq<T>, next: string, bytes: nat)

  datatype ListError = PageFailed(reason: string) | TooManyBytes | TooManyTools | TooManyPages

  /** What the upstream answers to its n-th request, asked with a cursor; it may answer at will. */
  type Upstream<!T> = (nat, string) -> Result<Page<T>, string>

  /** Caps of a client; zero or less means no cap on bytes or tools, and the default number of pages. */
  datatype Caps = Caps(maxPages: int, maxBytes: int, maxTools: int)

  const DEFAULT_MAX_PAGES := 50

  function MaxPages(caps: Caps): (n: int)
    ensures n > 0
  {
    if caps.maxPages <= 0 then DEFAULT_MAX_PAGES else caps.maxPages
  }

  /** The n-th page when each request uses the cursor of the page before. */
  function PageAt<T>(up: Upstream<T>, n: nat): Result<Page<T>, string> {
    if n == 0 then up(0, "")
    else
      match PageAt(up, n - 1)
      case Success(p) => up(n, p.next)
      case Failure(e) => Failure(e)
  }

  /** The tools and the bytes of the first n pages. */
  function Tools<T>(up: Upstream<T>, n: nat): seq<T> {
    if n == 0 then [] else Tools(up, n - 1) + (if PageAt(up, n - 1).Success? then PageAt(up, n - 1).value.tools else [])
  }

  function Bytes<T>(up: Upstream<T>, n: nat): nat {
    if n == 0 then 0 else Bytes(up, n - 1) + (if PageAt(up, n - 1).Success? then PageAt(up, n - 1).value.bytes else 0)
  }

  predicate FitsBytes<T>(up: Upstream<T>, n: nat, caps: Caps) { caps.maxBytes > 0 ==> Bytes(up, n) <= caps.maxBytes }

  predicate FitsTools<T>(up: Upstream<T>, n: nat, caps: Caps) { caps.maxTools > 0 ==> |Tools(up, n)| <= caps.maxTools }

  /** Page k came, the caps are kept up to it, and it announces another one. */
  predicate Announces<T>(up: Upstream<T>, k: nat, caps: Caps) {
    PageAt(up, k).Success? && PageAt(up, k).value.next != "" && FitsBytes(up, k + 1, caps) && FitsTools(up, k + 1, caps)
  }

  /** The first n pages came, stayed within the caps, and each announced another one. */
  predicate GoesOn<T>(up: Upstream<T>, n: nat, caps: Caps) {
    forall k: nat :: k < n ==> Announces(up, k, caps)
  }

  /** The list ends within the caps with page n. */
  predicate EndsWith<T>(up: Upstream<T>, n: nat, caps: Caps) {
    && n < MaxPages(caps) && GoesOn(up, n, caps)
    && PageAt(up, n).Success? && PageAt(up, n).value.next == "" && FitsBytes(up, n + 1, caps) && FitsTools(up, n + 1, caps)
  }

  lemma EndsOnce<T>(up: Upstream<T>, m: nat, n: nat, caps: Caps)
    requires EndsWith(up, m, caps) && GoesOn(up, n, caps)
    ensures n <= m && (n < m ==> Announces(up, n, caps))
  {
    var announces := Announces(up, m, caps);
    assert !announces;
  }

  /** All pages or an error: every tool of every page, in order, never part of the list. */
  method ListTools<T>(up: Upstream<T>, caps: Caps) returns (r: Result<seq<T>, ListError>, last: nat)
    ensures last < MaxPages(caps)
    ensures r.Success? <==> exists n: nat :: EndsWith(up, n, caps)
    ensures r.Success? ==> EndsWith(up, last, caps) && r.value == Tools(up, last + 1)
    ensures r.Failure? ==> GoesOn(up, last, caps) && match r.error
      case PageFailed(e) => PageAt(up, last) == Failure(e)
      case TooManyBytes => PageAt(up, last).Success? && !FitsBytes(up, last + 1, caps)
      case TooManyTools => PageAt(up, last).Success? && !FitsTools(up, last + 1, caps)
      case TooManyPages => last + 1 == MaxPages(caps) && GoesOn(up, last + 1, caps)
  {
    var all: seq<T>, total, cursor := [], 0, "";
    last := 0;
    for page := 0 to MaxPages(caps)
      invariant GoesOn(up, page, caps) && all == Tools(up, page) && total == Bytes(up, page)
      invariant page == 0 ==> cursor == ""
      invariant page > 0 ==> PageAt(up, page - 1).Success? && cursor == PageAt(up, page - 1).value.next && last == page - 1
    {
      last := page;
      forall m: nat | EndsWith(up, m, caps) ensures page <= m && (page < m ==> Announces(up, page, caps)) {
        EndsOnce(up, m, page, caps);
      }
      var answer := up(page, cursor);
      assert answer == PageAt(up, page);
      if answer.Failure? { return Failure(PageFailed(answer.error)), last; }
      all := all + answer.value.tools;
      total := total + answer.value.bytes;
      var n: nat := page + 1;
      assert all == Tools(up, n) && total == Bytes(up, n);
      if caps.maxBytes > 0 && total > caps.maxBytes { return Failure(TooManyBytes), last; }
      if caps.maxTools > 0 && |all| > caps.maxTools { return Failure(TooManyTools), last; }
      if answer.value.next == "" {
        assert EndsWith(up, page, caps);
        return Success(all), last;
      }
      assert Announces(up, page, caps);
      cursor := answer.value.next;
    }
    forall m: nat | EndsWith(up, m, caps) ensures MaxPages(caps) <= m { EndsOnce(up, m, MaxPages(caps), caps); }
    return Failure(TooManyPages), last;
  }

  // ---- a list cut into pages comes back whole ----

  function Flatten<T>(pages: seq<Page<T>>): seq<T> { if pages == [] then [] else pages[0].tools + Flatten(pages[1..]) }

  function Weight<T>(pages: seq<Page<T>>): nat { if pages == [] then 0 else pages[0].bytes + Weight(pages[1..]) }

  lemma {:induction false} FlattenAppends<T>(pages: seq<Page<T>>, p: Page<T>)
    ensures Flatten(pages + [p]) == Flatten(pages) + p.tools && Weight(pages + [p]) == Weight(pages) + p.bytes
  {
    if pages == [] {
      assert [] + [p] == [p] && [p][1..] == [];
    } else {
      assert (pages + [p])[1..] == pages[1..] + [p];
      FlattenAppends(pages[1..], p);
    }
  }

  /** The upstream serves these pages: the first for the empty cursor, each other one for the cursor before it. */
  ghost predicate Serves<T>(up: Upstream<T>, pages: seq<Page<T>>) {
    forall k: nat {:trigger ServesPage(up, pages, k)} :: k < |pages| ==> ServesPage(up, pages, k)
  }

  ghost predicate ServesPage<T>(up: Upstream<T>, pages: seq<Page<T>>, k: nat)
    requires k < |pages|
  {
    up(k, CursorOf(pages, k)) == Success(pages[k])
  }

  function CursorOf<T>(pages: seq<Page<T>>, k: nat): string
    requires k <= |pages|
  {
    if k == 0 then "" else pages[k - 1].next
  }

  lemma NextPage<T>(up: Upstream<T>, k: nat, cursor: string)
    requires if k == 0 then cursor == "" else PageAt(up, k - 1).Success? && PageAt(up, k - 1).value.next == cursor
    ensures PageAt(up, k) == up(k, cursor)
  {
  }

  lemma {:induction false} PageServed<T>(up: Upstream<T>, pages: seq<Page<T>>, k: nat)
    requires Serves(up, pages) && k < |pages|
    ensures PageAt(up, k) == Success(pages[k])
  {
    assert ServesPage(up, pages, k);
    if k == 0 {
      NextPage(up, 0, "");
    } else {
      PageServed(up, pages, k - 1);
      hide PageAt;
      NextPage(up, k, pages[k - 1].next);
    }
  }

  lemma {:induction false} ServedSoFar<T>(up: Upstream<T>, pages: seq<Page<T>>, n: nat)
    requires Serves(up, pages) && n <= |pages|
    ensures Tools(up, n) == Flatten(pages[..n]) && Bytes(up, n) == Weight(pages[..n])
  {
    if n > 0 {
      ServedSoFar(up, pages, n - 1);
      PageServed(up, pages, n - 1);
      FlattenAppends(pages[..n - 1], pages[n - 1]);
      assert pages[..n] == pages[..n - 1] + [pages[n - 1]];
    }
  }

  lemma {:induction false} FlattenGrows<T>(pages: seq<Page<T>>, n: nat)
    requires n <= |pages|
    ensures |Flatten(pages[..n])| <= |Flatten(pages)| && Weight(pages[..n]) <= Weight(pages)
  {
    if n > 0 {
      assert pages[..n][1..] == pages[1..][..n - 1];
      FlattenGrows(pages[1..], n - 1);
    }
  }

  /** Cursors on every page but the last. */
  predicate Chained<T>(pages: seq<Page<T>>) {
    pages != [] && forall k :: 0 <= k < |pages| ==> (pages[k].next == "" <==> k == |pages| - 1)
  }

  /**
    An upstream that serves a list in pages is answered for exactly if number of pages, bytes and tools
    are within the caps, and then with all the tools of all the pages.
  */
  lemma PagesComeBack<T>(up: Upstream<T>, pages: seq<Page<T>>, caps: Caps)
    requires Serves(up, pages) && Chained(pages)
    ensures (exists n: nat :: EndsWith(up, n, caps))
       <==> |pages| <= (if caps.maxPages > 0 then caps.maxPages else 50)
            && (caps.maxBytes > 0 ==> Weight(pages) <= caps.maxBytes)
            && (caps.maxTools > 0 ==> |Flatten(pages)| <= caps.maxTools)
    ensures forall n: nat :: EndsWith(up, n, caps) ==> Tools(up, n + 1) == Flatten(pages)
  {
    var last: nat := |pages| - 1;
    WholeList(up, pages);
    hide Tools, Bytes, PageAt, Flatten, Weight, Serves, Chained;
    forall n: nat | EndsWith(up, n, caps) ensures n == last { EndsAtLast(up, pages, n, caps); }
    if |pages| <= MaxPages(caps) && FitsBytes(up, last + 1, caps) && FitsTools(up, last + 1, caps) {
      LastPageEnds(up, pages, caps);
    }
  }

  lemma WholeList<T>(up: Upstream<T>, pages: seq<Page<T>>)
    requires Serves(up, pages)
    ensures Tools(up, |pages|) == Flatten(pages) && Bytes(up, |pages|) == Weight(pages)
  {
    ServedSoFar(up, pages, |pages|);
    assert pages[..|pages|] == pages;
  }

  lemma LastPageEnds<T>(up: Upstream<T>, pages: seq<Page<T>>, caps: Caps)
    requires Serves(up, pages) && Chained(pages) && |pages| <= MaxPages(caps)
    requires FitsBytes(up, |pages|, caps) && FitsTools(up, |pages|, caps)
    ensures EndsWith(up, |pages| - 1, caps)
  {
    hide Serves;
    WholeList(up, pages);
    hide Tools, Bytes, PageAt, Flatten, Weight;
    var last: nat := |pages| - 1;
    PageServed(up, pages, last);
    forall k: nat | k < last ensures Announces(up, k, caps) {
      PageServed(up, pages, k);
      ServedSoFar(up, pages, k + 1);
      FlattenGrows(pages, k + 1);
    }
  }

  lemma EndsAtLast<T>(up: Upstream<T>, pages: seq<Page<T>>, n: nat, caps: Caps)
    requires Serves(up, pages) && Chained(pages) && EndsWith(up, n, caps)
    ensures n == |pages| - 1
  {
    var last: nat := |pages| - 1;
    PageServed(up, pages, last);
    var announces := Announces(up, last, caps);
    assert !announces;
    if n < last { PageServed(up, pages, n); }
  }
}
