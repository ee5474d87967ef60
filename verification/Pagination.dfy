/** Reading every page of a list (pkg/runtime/paginate.go). */
module Pagination {
  import opened Wrappers
  import opened JsonValues
  import opened Text
  import opened Decimal
  import opened Documents
  import opened PathLaws
  import opened Urls
  import opened QueryRewrite

  datatype Strategy = Cursor | BodyCursor | Offset | OtherStrategy

  datatype Hint = Hint(strategy: Strategy, tokenParam: ByteString, tokenField: string)

  datatype Request = Request(path: string, body: Option<Json>)

  /** A server that may answer each page's request differently. The outer `None` is a failed request,
      the inner one a body that is not JSON. */
  type Server = (nat, Request) -> Option<Option<Json>>

  const DEFAULT_MAX_PAGES := 100

  // ----- what a page says

  function ItemsIn(data: Option<Json>, listPath: string): seq<Json> {
    match data
    case None => []
    case Some(root) =>
      if listPath != "" && !root.Obj? then []
      else
        match GetPath(root, listPath)
        case Some(Arr(items)) => items
        case _ => []
  }

  function ValueAt(data: Option<Json>, field: string): Option<Json> {
    if field == "" || data.None? || !data.value.Obj? then None else GetPath(data.value, field)
  }

  function TextAt(data: Option<Json>, field: string): string {
    match ValueAt(data, field)
    case Some(Str(s)) => s
    case _ => ""
  }

  function TrimSuffix(s: string, suffix: string): string {
    if HasSuffix(s, suffix) then s[..|s| - |suffix|] else s
  }

  function RelayHasNextPath(tokenField: string): string {
    TrimSuffix(tokenField, ".endCursor") + ".hasNextPage"
  }

  /** The token that leads on; empty when this is the last page. */
  function NextToken(hint: Hint, data: Option<Json>): string {
    if hint.strategy == BodyCursor && ValueAt(data, RelayHasNextPath(hint.tokenField)) == Some(Bool(false)) then ""
    else TextAt(data, hint.tokenField)
  }

  // ----- moving on

  /** strconv.Atoi with the error ignored: zero on bad syntax, the nearest bound when out of range. */
  function AtoiOrBound(s: string): int {
    var signed := s != [] && (s[0] == '-' || s[0] == '+');
    var digits := if signed then s[1..] else s;
    if digits == [] || !IsDigits(digits) then 0
    else if Atoi(s).Some? then Atoi(s).value
    else if s[0] == '-' then MIN_INT64
    else MAX_INT64
  }

  /** A numeral reads as the integer of 64 bits that is nearest to it. */
  lemma NearestInteger(digits: string)
    requires digits != [] && IsDigits(digits)
    ensures AtoiOrBound(digits) == AtoiOrBound("+" + digits)
         == if Value(digits) <= MAX_INT64 then Value(digits) else MAX_INT64
    ensures var n: int := Value(digits); AtoiOrBound("-" + digits) == if -n >= MIN_INT64 then -n else MIN_INT64
  {
    AtoiUnsigned(digits);
    AtoiNegative(digits);
    assert ("+" + digits)[1..] == digits && ("-" + digits)[1..] == digits;
    assert '0' <= digits[0] <= '9';
  }

  /** 64-bit addition. */
  function Wrap64(n: int): int {
    (n - MIN_INT64) % 0x1_0000_0000_0000_0000 + MIN_INT64
  }

  function OffsetIn(path: string, key: string): int {
    AtoiOrBound(QueryGet(Parts(path), key))
  }

  function WithBodyParam(body: Option<Json>, path: string, value: string): Option<Json> {
    if path == "" then None
    else
      match body
      case Some(Obj(root)) =>
        (match Set(root, ParsePath(path), Str(value))
         case Some(after) => Some(Obj(after))
         case None => None)
      case _ => None
  }

  datatype State = State(request: Request, offset: int)

  datatype Progress = Done | Broken | Onward(next: State)

  function AtOffset(basePath: string, hint: Hint, state: State, offset: int): State {
    FormatBytes(offset);
    State(Request(WithQueryParam(basePath, hint.tokenParam, FormatInt(offset)), state.request.body), offset)
  }

  /** What the switch at the end of the loop body does. (No Go string holds anything but bytes.) */
  function Advance(basePath: string, hint: Hint, state: State, data: Option<Json>, count: nat): Progress {
    match hint.strategy
    case Cursor =>
      var token := NextToken(hint, data);
      if token == "" then Done
      else if !Bytes(token) then Broken
      else Onward(state.(request := Request(WithQueryParam(basePath, hint.tokenParam, token), state.request.body)))
    case BodyCursor =>
      var token := NextToken(hint, data);
      if token == "" then Done
      else
        (match WithBodyParam(state.request.body, hint.tokenParam, token)
         case Some(body) => Onward(state.(request := state.request.(body := Some(body))))
         case None => Broken)
    case Offset =>
      if count == 0 then Done else Onward(AtOffset(basePath, hint, state, Wrap64(state.offset + count)))
    case OtherStrategy => Done
  }

  lemma FormatBytes(n: int)
    ensures Bytes(FormatInt(n))
  {
  }

  type Stepper = (State, Option<Json>, nat) -> Progress

  function Stepping(basePath: string, hint: Hint): Stepper {
    (state: State, data: Option<Json>, count: nat) => Advance(basePath, hint, state, data, count)
  }

  /** `finished` tells whether the loop ended before the page limit. */
  datatype Gathered = Gathered(items: seq<Json>, finished: bool)

  function More(items: seq<Json>, rest: Option<Gathered>): Option<Gathered> {
    match rest
    case Some(more) => Some(Gathered(items + more.items, more.finished))
    case None => None
  }

  /** The pages from `page` on, at most `left` of them; `None` is an error. */
  function Gather(server: Server, step: Stepper, listPath: string, page: nat, left: nat, state: State): Option<Gathered>
    decreases left
  {
    if left == 0 then Some(Gathered([], false))
    else
      match server(page, state.request)
      case None => None
      case Some(data) =>
        var items := ItemsIn(data, listPath);
        match step(state, data, |items|)
        case Done => Some(Gathered(items, true))
        case Broken => None
        case Onward(next) => More(items, Gather(server, step, listPath, page + 1, left - 1, next))
  }

  function Limit(maxPages: int): nat {
    if maxPages <= 0 then DEFAULT_MAX_PAGES else maxPages
  }

  function FirstState(basePath: string, body: Option<Json>, hint: Hint): State {
    State(Request(basePath, body), if hint.strategy == Offset then OffsetIn(basePath, hint.tokenParam) else 0)
  }

  /** buildMergedJSON; a nil slice prints as null. */
  function Merged(items: seq<Json>, listPath: string): Json {
    var list := if items == [] then Null else Arr(items);
    if listPath == "" then list
    else
      SetFresh(ParsePath(listPath), list);
      Obj(Set(map[], ParsePath(listPath), list).value)
  }

  /** What the merged document holds at the path. */
  lemma MergedAt(items: seq<Json>, listPath: string)
    ensures GetPath(Merged(items, listPath), listPath) == Some(if items == [] then Null else Arr(items))
  {
    var list := if items == [] then Null else Arr(items);
    if listPath != "" {
      SetFresh(ParsePath(listPath), list);
      ReadBack(map[], listPath, list);
    }
  }

  /** The merged document is read like a page, and holds exactly the items. */
  lemma MergedReadsBack(items: seq<Json>, listPath: string)
    ensures ItemsIn(Some(Merged(items, listPath)), listPath) == items
  {
    MergedAt(items, listPath);
  }

  /** A list is at the path. */
  predicate HoldsList(document: Json, listPath: string) {
    GetPath(document, listPath).Some? && GetPath(document, listPath).value.Arr?
  }

  /** The merged document holds a list exactly when there are items; without any it holds null. */
  lemma MergedHoldsListIff(items: seq<Json>, listPath: string)
    ensures HoldsList(Merged(items, listPath), listPath) <==> items != []
    ensures items == [] ==> GetPath(Merged(items, listPath), listPath) == Some(Null)
  {
    MergedAt(items, listPath);
  }

  /** The page loop. */
  method ReadPages(server: Server, step: Stepper, listPath: string, limit: nat, first: State)
    returns (gathered: Option<Gathered>)
    ensures gathered == Gather(server, step, listPath, 0, limit, first)
  {
    var allItems: seq<Json>, state := [], first;
    ghost var goal := Gather(server, step, listPath, 0, limit, first);
    MoreOfNothing(goal);
    for page := 0 to limit
      invariant goal == More(allItems, Gather(server, step, listPath, page, limit - page, state))
    {
      var response := server(page, state.request);
      if response.None? {
        return None;
      }
      var items := ItemsIn(response.value, listPath);
      match step(state, response.value, |items|) {
        case Done =>
          return Some(Gathered(allItems + items, true));
        case Broken =>
          return None;
        case Onward(next) =>
          MoreAssociates(allItems, items, Gather(server, step, listPath, page + 1, limit - page - 1, next));
          allItems, state := allItems + items, next;
      }
    }
    assert allItems + [] == allItems;
    return Some(Gathered(allItems, false));
  }

  /** PaginateAll; `None` is an error, which there is exactly when the loop broke off. Otherwise the document
      reads, like a page, as the items of all pages, and it holds a list only if there are any. */
  method PaginateAll(server: Server, basePath: string, body: Option<Json>, hint: Hint, listPath: string, maxPages: int)
    returns (result: Option<Json>)
    ensures result == AllPages(server, basePath, body, hint, listPath, maxPages)
    ensures result.Some? <==> Everything(server, basePath, body, hint, listPath, maxPages).Some?
    ensures result.Some? ==>
      && ItemsIn(result, listPath) == Everything(server, basePath, body, hint, listPath, maxPages).value.items
      && (HoldsList(result.value, listPath) <==> ItemsIn(result, listPath) != [])
  {
    var first := FirstState(basePath, body, hint);
    var gathered := ReadPages(server, Stepping(basePath, hint), listPath, Limit(maxPages), first);
    if gathered.None? {
      return None;
    }
    MergedReadsBack(gathered.value.items, listPath);
    MergedHoldsListIff(gathered.value.items, listPath);
    result := Some(Merged(gathered.value.items, listPath));
  }

  /** The items of all pages, up to the page limit. */
  function Everything(server: Server, basePath: string, body: Option<Json>, hint: Hint, listPath: string, maxPages: int)
    : Option<Gathered>
  {
    Gather(server, Stepping(basePath, hint), listPath, 0, Limit(maxPages), FirstState(basePath, body, hint))
  }

  function AllPages(server: Server, basePath: string, body: Option<Json>, hint: Hint, listPath: string, maxPages: int)
    : Option<Json>
  {
    match Everything(server, basePath, body, hint, listPath, maxPages)
    case Some(gathered) => Some(Merged(gathered.items, listPath))
    case None => None
  }

  lemma MoreOfNothing(rest: Option<Gathered>)
    ensures More([], rest) == rest
  {
    if rest.Some? {
      assert [] + rest.value.items == rest.value.items;
    }
  }

  lemma MoreAssociates(a: seq<Json>, b: seq<Json>, rest: Option<Gathered>)
    ensures More(a, More(b, rest)) == More(a + b, rest)
  {
    if rest.Some? {
      assert a + (b + rest.value.items) == a + b + rest.value.items;
    }
  }
}
