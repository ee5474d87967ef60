/** Paging agrees with reading the whole list. */
module PaginationTheorems {
  import opened Wrappers
  import opened JsonValues
  import opened Decimal
  import opened Documents
  import opened PathLaws
  import opened Urls
  import opened QueryRewrite
  import opened Pagination

  // ----- offsets

  /** A consecutive slice from `offset` on, empty only at the end. */
  predicate SliceAt(items: seq<Json>, list: seq<Json>, offset: nat) {
    && offset + |items| <= |list| && items == list[offset..offset + |items|]
    && (items == [] ==> offset == |list|)
  }

  /** Where a request asks to start. */
  type Locator = Request -> int

  /** The requests of one paging. */
  type Asked = Request -> bool

  /** A server that answers any such request for an offset with a slice from there, of any length. */
  ghost predicate ServesSlices(server: Server, at: Locator, asked: Asked, listPath: string, list: seq<Json>) {
    forall page, request :: asked(request) ==> ServesSlice(server, at, listPath, list, page, request)
  }

  ghost predicate ServesSlice(server: Server, at: Locator, listPath: string, list: seq<Json>, page: nat,
                              request: Request)
  {
    0 <= at(request) <= |list| ==>
      server(page, request).Some? && SliceAt(ItemsIn(server(page, request).value, listPath), list, at(request))
  }

  lemma AtoiReadsBack(n: int)
    requires MIN_INT64 <= n <= MAX_INT64
    ensures AtoiOrBound(FormatInt(n)) == n
  {
    AtoiFormatInt(n);
    if n < 0 {
      assert FormatInt(n)[1..] == Itoa(-n);
    }
  }

  lemma OffsetReadsBack(basePath: string, key: ByteString, offset: nat)
    requires offset <= MAX_INT64
    ensures Bytes(FormatInt(offset)) && OffsetIn(WithQueryParam(basePath, key, FormatInt(offset)), key) == offset
  {
    FormatBytes(offset);
    GetAfterSet(basePath, key, FormatInt(offset));
    AtoiReadsBack(offset);
  }

  function AskedOffset(hint: Hint): Locator {
    (request: Request) => OffsetIn(request.path, hint.tokenParam)
  }

  /** An empty page ends the loop; after any other the next request asks for the offset behind it. */
  ghost predicate StepsByOffset(step: Stepper, at: Locator, asked: Asked) {
    && (forall state: State, data: Option<Json> :: step(state, data, 0) == Done)
    && (forall state: State, data: Option<Json>, count: nat ::
          asked(state.request) && 0 <= state.offset && 0 < count && state.offset + count <= MAX_INT64 ==>
            MovesTo(step(state, data, count), at, asked, state.offset + count))
  }

  predicate MovesTo(progress: Progress, at: Locator, asked: Asked, offset: int) {
    progress.Onward? && progress.next.offset == at(progress.next.request) == offset && asked(progress.next.request)
  }

  /** A request with the first body, at the first path or at that path with another offset. */
  ghost predicate SameButOffset(basePath: string, body: Option<Json>, hint: Hint, request: Request) {
    && request.body == body
    && (request.path == basePath
        || exists value: ByteString :: request.path == WithQueryParam(basePath, hint.tokenParam, value))
  }

  lemma NextIsSameButOffset(basePath: string, body: Option<Json>, hint: Hint, state: State, offset: nat)
    requires state.request.body == body
    ensures SameButOffset(basePath, body, hint, AtOffset(basePath, hint, state, offset).request)
  {
    FormatBytes(offset);
    var value: ByteString := FormatInt(offset);
    assert AtOffset(basePath, hint, state, offset).request.path == WithQueryParam(basePath, hint.tokenParam, value);
  }

  ghost function Pages(basePath: string, body: Option<Json>, hint: Hint): Asked {
    (request: Request) => SameButOffset(basePath, body, hint, request)
  }

  lemma OffsetSteps(basePath: string, body: Option<Json>, hint: Hint)
    requires hint.strategy == Offset
    ensures StepsByOffset(Stepping(basePath, hint), AskedOffset(hint), Pages(basePath, body, hint))
  {
    var asked := Pages(basePath, body, hint);
    forall state: State, data: Option<Json>, count: nat |
      asked(state.request) && 0 <= state.offset && 0 < count && state.offset + count <= MAX_INT64
      ensures MovesTo(Stepping(basePath, hint)(state, data, count), AskedOffset(hint), asked, state.offset + count)
    {
      OffsetStep(basePath, body, hint, state, data, count);
    }
  }

  lemma OffsetStep(basePath: string, body: Option<Json>, hint: Hint, state: State, data: Option<Json>, count: nat)
    requires hint.strategy == Offset && state.request.body == body
    requires 0 <= state.offset && 0 < count && state.offset + count <= MAX_INT64
    ensures MovesTo(Advance(basePath, hint, state, data, count), AskedOffset(hint), Pages(basePath, body, hint),
                    state.offset + count)
  {
    OffsetMoves(basePath, hint, state, data, count);
    OffsetAsked(basePath, hint, state, state.offset + count);
    NextIsSameButOffset(basePath, body, hint, state, state.offset + count);
  }

  lemma OffsetMoves(basePath: string, hint: Hint, state: State, data: Option<Json>, count: nat)
    requires hint.strategy == Offset && 0 <= state.offset && 0 < count && state.offset + count <= MAX_INT64
    ensures Advance(basePath, hint, state, data, count) == Onward(AtOffset(basePath, hint, state, state.offset + count))
  {
    WrapInRange(state.offset + count);
  }

  lemma OffsetAsked(basePath: string, hint: Hint, state: State, offset: nat)
    requires offset <= MAX_INT64
    ensures AskedOffset(hint)(AtOffset(basePath, hint, state, offset).request) == offset
    ensures AtOffset(basePath, hint, state, offset).offset == offset
  {
    OffsetReadsBack(basePath, hint.tokenParam, offset);
  }

  lemma WrapInRange(n: int)
    requires MIN_INT64 <= n <= MAX_INT64
    ensures Wrap64(n) == n
  {
  }

  /** What the loop makes of a list from `offset` on: no gap, no duplicate, all of it when the loop ends
      by itself, which it does when pages are left. */
  predicate Reads(gathered: Option<Gathered>, list: seq<Json>, offset: nat, left: nat) {
    && gathered.Some?
    && offset + |gathered.value.items| <= |list|
    && gathered.value.items == list[offset..offset + |gathered.value.items|]
    && (gathered.value.finished ==> offset + |gathered.value.items| == |list|)
    && (|gathered.value.items| < left ==> gathered.value.finished)
  }

  lemma ReadsOn(items: seq<Json>, rest: Option<Gathered>, list: seq<Json>, offset: nat, left: nat)
    requires SliceAt(items, list, offset) && items != [] && left > 0
    requires Reads(rest, list, offset + |items|, left - 1)
    ensures Reads(More(items, rest), list, offset, left)
  {
    var more := rest.value.items;
    assert items + more == list[offset..offset + |items| + |more|];
  }

  lemma {:induction false} OffsetGathers(server: Server, step: Stepper, at: Locator, listPath: string, list: seq<Json>,
                                         asked: Asked, page: nat, left: nat, state: State)
    requires |list| <= MAX_INT64 && ServesSlices(server, at, asked, listPath, list) && StepsByOffset(step, at, asked)
    requires asked(state.request) && 0 <= state.offset == at(state.request) <= |list|
    ensures Reads(Gather(server, step, listPath, page, left, state), list, state.offset, left)
    decreases left
  {
    if left == 0 {
    } else {
      assert ServesSlice(server, at, listPath, list, page, state.request);
      var data := server(page, state.request).value;
      var items := ItemsIn(data, listPath);
      if items != [] {
        assert MovesTo(step(state, data, |items|), at, asked, state.offset + |items|);
        var next := step(state, data, |items|).next;
        OffsetGathers(server, step, at, listPath, list, asked, page + 1, left - 1, next);
        ReadsOn(items, Gather(server, step, listPath, page + 1, left - 1, next), list, state.offset, left);
      }
    }
  }

  /** The result document, read like a page, is the list from `offset` on: all of it when it is shorter than
      the page limit. */
  predicate ReadsAsSlice(result: Option<Json>, listPath: string, list: seq<Json>, offset: nat, left: nat) {
    && result.Some?
    && var items := ItemsIn(result, listPath);
       && offset + |items| <= |list| && items == list[offset..offset + |items|]
       && (|items| < left ==> offset + |items| == |list|)
  }

  /** Paging by offset against any server that answers the same request at any offset with a slice: from the
      offset in the first request on, the list without gap or duplicate; all of it when an empty page ends
      the loop, which it does when the list is shorter than the page limit. */
  lemma OffsetReadsList(server: Server, basePath: string, body: Option<Json>, hint: Hint, listPath: string,
                        list: seq<Json>, maxPages: int)
    requires hint.strategy == Offset && |list| <= MAX_INT64
    requires ServesSlices(server, AskedOffset(hint), Pages(basePath, body, hint), listPath, list)
    requires 0 <= OffsetIn(basePath, hint.tokenParam) <= |list|
    ensures Reads(Everything(server, basePath, body, hint, listPath, maxPages), list,
                  OffsetIn(basePath, hint.tokenParam), Limit(maxPages))
    ensures ReadsAsSlice(AllPages(server, basePath, body, hint, listPath, maxPages), listPath, list,
                         OffsetIn(basePath, hint.tokenParam), Limit(maxPages))
  {
    OffsetSteps(basePath, body, hint);
    var first := FirstState(basePath, body, hint);
    assert first.offset == AskedOffset(hint)(first.request);
    OffsetGathers(server, Stepping(basePath, hint), AskedOffset(hint), listPath, list, Pages(basePath, body, hint), 0,
                  Limit(maxPages), first);
    MergedReadsBack(Everything(server, basePath, body, hint, listPath, maxPages).value.items, listPath);
  }

  // ----- cursors

  /** The token a request carries. */
  function Carried(hint: Hint, request: Request): string {
    if hint.strategy == Cursor then QueryGet(Parts(request.path), hint.tokenParam)
    else TextAt(request.body, hint.tokenParam)
  }

  /** The JSON object of a page holds a non-empty text at the path. */
  predicate HoldsText(data: Option<Json>, path: string, text: string) {
    data.Some? && data.value.Obj? && path != "" && text != "" && GetPath(data.value, path) == Some(Str(text))
  }

  /** The boolean beside the cursor, `hasNextPage` for `endCursor`, says that there is no next page. */
  predicate SaysNoMore(data: Option<Json>, tokenField: string) {
    var n := |tokenField| - |".endCursor"|;
    var beside := if n >= 0 && tokenField[n..] == ".endCursor" then tokenField[..n] else tokenField;
    data.Some? && data.value.Obj? && GetPath(data.value, beside + ".hasNextPage") == Some(Bool(false))
  }

  /** The page leads on with this token, `""` when it is the last: a body cursor can be told so beside the token. */
  ghost predicate LeadsOn(hint: Hint, data: Option<Json>, token: string) {
    if hint.strategy == BodyCursor && SaysNoMore(data, hint.tokenField) then token == ""
    else if token == "" then forall text :: !HoldsText(data, hint.tokenField, text)
    else HoldsText(data, hint.tokenField, token)
  }

  lemma LeadsOnByToken(hint: Hint, data: Option<Json>, token: string)
    ensures LeadsOn(hint, data, token) <==> NextToken(hint, data) == token
  {
    var text := TextAt(data, hint.tokenField);
    assert text != "" ==> HoldsText(data, hint.tokenField, text);
    assert RelayHasNextPath(hint.tokenField) != "";
  }

  /** The list at the path, nothing where there is none. */
  predicate HoldsItems(data: Option<Json>, listPath: string, items: seq<Json>) {
    if data.Some? && (listPath == "" || data.value.Obj?) && GetPath(data.value, listPath).Some?
       && GetPath(data.value, listPath).value.Arr?
    then items == GetPath(data.value, listPath).value.items
    else items == []
  }

  ghost predicate Answers(response: Option<Option<Json>>, hint: Hint, listPath: string, items: seq<Json>,
                          token: string) {
    response.Some? && HoldsItems(response.value, listPath, items) && LeadsOn(hint, response.value, token)
  }

  /** A server whose pages form a chain: the first request gets page 0, and a request that carries the
      token of page `k` gets page `k + 1`. An empty token ends the chain, if it ends. */
  ghost predicate ServesChain(server: Server, hint: Hint, listPath: string, first: Request,
                              pages: nat -> seq<Json>, tokens: nat -> string) {
    && (forall page :: Answers(server(page, first), hint, listPath, pages(0), tokens(0)))
    && (forall page, request, k: nat ::
          tokens(k) != "" && Carried(hint, request) == tokens(k) ==>
            Answers(server(page, request), hint, listPath, pages(k + 1), tokens(k + 1)))
  }

  /** Go strings are bytes. */
  ghost predicate ByteTokens(tokens: nat -> string) {
    forall k: nat :: Bytes(tokens(k))
  }

  /** The pages from `k` on that are read: up to the first empty token, at most `left`. */
  function Chain(pages: nat -> seq<Json>, tokens: nat -> string, k: nat, left: nat): Gathered
    decreases left
  {
    if left == 0 then Gathered([], false)
    else if tokens(k) == "" then Gathered(pages(k), true)
    else
      var more := Chain(pages, tokens, k + 1, left - 1);
      Gathered(pages(k) + more.items, more.finished)
  }

  /** Setting the body parameter twice is setting it once, and the body then carries the token. */
  lemma BodyParamTwice(body: Option<Json>, path: string, v: string, w: string)
    requires WithBodyParam(body, path, v).Some?
    ensures WithBodyParam(body, path, w).Some?
    ensures WithBodyParam(WithBodyParam(body, path, v), path, w) == WithBodyParam(body, path, w)
    ensures TextAt(WithBodyParam(body, path, v), path) == v
  {
    var root := body.value.fields;
    SetsAlike(Obj(root), ParsePath(path), Str(v), Str(w));
    LastWriteWins(root, path, Str(v), Str(w));
    ReadBack(root, path, Str(v));
  }

  /** The request for the page after one that returned `token`. */
  ghost predicate Follows(basePath: string, hint: Hint, first: Request, request: Request, token: string)
    requires Bytes(token)
  {
    if hint.strategy == Cursor
    then request == Request(WithQueryParam(basePath, hint.tokenParam, token), first.body)
    else request.path == first.path && request.body == WithBodyParam(first.body, hint.tokenParam, token)
         && request.body.Some?
  }

  lemma FollowerCarries(basePath: string, hint: Hint, first: Request, request: Request, token: string)
    requires Bytes(token) && (hint.strategy == Cursor || hint.strategy == BodyCursor)
    requires Follows(basePath, hint, first, request, token)
    ensures Carried(hint, request) == token
  {
    if hint.strategy == Cursor {
      GetAfterSet(basePath, hint.tokenParam, token);
    } else {
      BodyParamTwice(first.body, hint.tokenParam, token, token);
    }
  }

  /** The body parameter can be set at all. */
  predicate Settable(hint: Hint, first: Request) {
    hint.strategy == Cursor || (hint.strategy == BodyCursor && WithBodyParam(first.body, hint.tokenParam, "").Some?)
  }

  /** A request that may follow the page with this token; `""` stands for the first request. */
  ghost predicate MayAsk(basePath: string, hint: Hint, first: Request, request: Request, token: string) {
    if token == "" then request == first else Bytes(token) && Follows(basePath, hint, first, request, token)
  }

  type Asks = (Request, string) -> bool

  /** One step of the loop, seen from the requests alone. */
  ghost predicate StepsByToken(step: Stepper, hint: Hint, asks: Asks) {
    && (forall state: State, data: Option<Json>, count: nat ::
          LeadsOn(hint, data, "") ==> step(state, data, count) == Done)
    && (forall state: State, data: Option<Json>, count: nat, token, next ::
          asks(state.request, token) && LeadsOn(hint, data, next) && next != "" && Bytes(next) ==>
            StepAsks(step(state, data, count), asks, next))
  }

  ghost predicate StepAsks(progress: Progress, asks: Asks, token: string) {
    progress.Onward? && asks(progress.next.request, token)
  }

  ghost function AsksFrom(basePath: string, hint: Hint, first: Request): Asks {
    (request: Request, token: string) => MayAsk(basePath, hint, first, request, token)
  }

  lemma TokenStep(basePath: string, hint: Hint, first: Request, state: State, data: Option<Json>, count: nat,
                  token: string, next: string)
    requires Settable(hint, first) && first.path == basePath && MayAsk(basePath, hint, first, state.request, token)
    requires LeadsOn(hint, data, next) && next != "" && Bytes(next)
    ensures StepAsks(Stepping(basePath, hint)(state, data, count), AsksFrom(basePath, hint, first), next)
  {
    LeadsOnByToken(hint, data, next);
    if hint.strategy == BodyCursor {
      BodyParamTwice(first.body, hint.tokenParam, "", next);
      if token != "" {
        BodyParamTwice(first.body, hint.tokenParam, token, next);
      }
    }
  }

  lemma TokenSteps(basePath: string, hint: Hint, first: Request)
    requires Settable(hint, first) && first.path == basePath
    ensures StepsByToken(Stepping(basePath, hint), hint, AsksFrom(basePath, hint, first))
  {
    forall state: State, data: Option<Json>, count: nat | LeadsOn(hint, data, "")
      ensures Stepping(basePath, hint)(state, data, count) == Done
    {
      LeadsOnByToken(hint, data, "");
    }
    forall state: State, data: Option<Json>, count: nat, token, next |
      AsksFrom(basePath, hint, first)(state.request, token) && LeadsOn(hint, data, next) && next != "" && Bytes(next)
      ensures StepAsks(Stepping(basePath, hint)(state, data, count), AsksFrom(basePath, hint, first), next)
    {
      TokenStep(basePath, hint, first, state, data, count, token, next);
    }
  }

  /** The token that leads to page `k`. */
  function TokenTo(tokens: nat -> string, k: nat): string {
    if k == 0 then "" else tokens(k - 1)
  }

  /** Page `k` is what any request that may ask for it gets. */
  ghost predicate ServesAsked(server: Server, hint: Hint, listPath: string, asks: Asks,
                              pages: nat -> seq<Json>, tokens: nat -> string) {
    forall page, request, k: nat :: AnswersAsked(server, hint, listPath, asks, pages, tokens, page, request, k)
  }

  ghost predicate AnswersAsked(server: Server, hint: Hint, listPath: string, asks: Asks,
                               pages: nat -> seq<Json>, tokens: nat -> string, page: nat, request: Request, k: nat) {
    asks(request, TokenTo(tokens, k)) && (k > 0 ==> tokens(k - 1) != "") ==>
      Answers(server(page, request), hint, listPath, pages(k), tokens(k))
  }

  lemma ChainServesAsked(server: Server, basePath: string, hint: Hint, listPath: string, first: Request,
                         pages: nat -> seq<Json>, tokens: nat -> string)
    requires Settable(hint, first) && ServesChain(server, hint, listPath, first, pages, tokens)
    ensures ServesAsked(server, hint, listPath, AsksFrom(basePath, hint, first), pages, tokens)
  {
    var asks := AsksFrom(basePath, hint, first);
    forall page, request, k: nat
      ensures AnswersAsked(server, hint, listPath, asks, pages, tokens, page, request, k)
    {
      if k > 0 && tokens(k - 1) != "" && asks(request, tokens(k - 1)) {
        FollowerCarries(basePath, hint, first, request, tokens(k - 1));
        assert Answers(server(page, request), hint, listPath, pages(k - 1 + 1), tokens(k - 1 + 1));
      }
    }
  }

  lemma {:induction false} ChainGathers(server: Server, step: Stepper, hint: Hint, asks: Asks, listPath: string,
                                        pages: nat -> seq<Json>, tokens: nat -> string, k: nat, page: nat, left: nat,
                                        state: State)
    requires StepsByToken(step, hint, asks) && ServesAsked(server, hint, listPath, asks, pages, tokens)
    requires ByteTokens(tokens) && asks(state.request, TokenTo(tokens, k)) && (k > 0 ==> tokens(k - 1) != "")
    ensures Gather(server, step, listPath, page, left, state) == Some(Chain(pages, tokens, k, left))
    decreases left
  {
    if left == 0 {
    } else {
      PageAsked(server, hint, asks, listPath, pages, tokens, page, state.request, k);
      var data := server(page, state.request).value;
      StepsAlong(step, hint, asks, state, data, |pages(k)|, TokenTo(tokens, k), tokens(k));
      if tokens(k) != "" {
        ChainGathers(server, step, hint, asks, listPath, pages, tokens, k + 1, page + 1, left - 1,
                     step(state, data, |pages(k)|).next);
      }
    }
  }

  lemma PageAsked(server: Server, hint: Hint, asks: Asks, listPath: string, pages: nat -> seq<Json>,
                  tokens: nat -> string, page: nat, request: Request, k: nat)
    requires ServesAsked(server, hint, listPath, asks, pages, tokens)
    requires asks(request, TokenTo(tokens, k)) && (k > 0 ==> tokens(k - 1) != "")
    ensures var response := server(page, request);
            response.Some? && ItemsIn(response.value, listPath) == pages(k) && LeadsOn(hint, response.value, tokens(k))
  {
    assert AnswersAsked(server, hint, listPath, asks, pages, tokens, page, request, k);
  }

  lemma StepsAlong(step: Stepper, hint: Hint, asks: Asks, state: State, data: Option<Json>, count: nat, token: string,
                   next: string)
    requires StepsByToken(step, hint, asks) && asks(state.request, token) && LeadsOn(hint, data, next) && Bytes(next)
    ensures if next == "" then step(state, data, count) == Done else StepAsks(step(state, data, count), asks, next)
  {
  }

  /** Paging by a cursor, in the query or in the body, reads the chain's pages in order, up to the page
      limit. */
  lemma CursorReadsChain(server: Server, basePath: string, body: Option<Json>, hint: Hint, listPath: string,
                         pages: nat -> seq<Json>, tokens: nat -> string, maxPages: int)
    requires Settable(hint, Request(basePath, body)) && ByteTokens(tokens)
    requires ServesChain(server, hint, listPath, Request(basePath, body), pages, tokens)
    ensures Everything(server, basePath, body, hint, listPath, maxPages)
         == Some(Chain(pages, tokens, 0, Limit(maxPages)))
    ensures AllPages(server, basePath, body, hint, listPath, maxPages).Some?
    ensures ItemsIn(AllPages(server, basePath, body, hint, listPath, maxPages), listPath)
         == Chain(pages, tokens, 0, Limit(maxPages)).items
  {
    var first := Request(basePath, body);
    TokenSteps(basePath, hint, first);
    ChainServesAsked(server, basePath, hint, listPath, first, pages, tokens);
    ChainGathers(server, Stepping(basePath, hint), hint, AsksFrom(basePath, hint, first), listPath, pages, tokens,
                 0, 0, Limit(maxPages), FirstState(basePath, body, hint));
    MergedReadsBack(Chain(pages, tokens, 0, Limit(maxPages)).items, listPath);
  }
}
