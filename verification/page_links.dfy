/** `src/api/handlers/catalog.rs`: the comma-joined history behind the Prev and Next links. */
module PageLinks {
  import opened Prelude
  import opened Cursor

  const HISTORY_ROOT := "~"

  /** `str::split(',')`. */
  function Split(s: string): (r: seq<string>)
    ensures |r| >= 1
  {
    if s == "" then [""]
    else if s[0] == ',' then [""] + Split(s[1..])
    else
      var rest := Split(s[1..]);
      [[s[0]] + rest[0]] + rest[1..]
  }

  /** `join(",")`. */
  function Join(parts: seq<string>): string {
    if parts == [] then ""
    else if |parts| == 1 then parts[0]
    else parts[0] + "," + Join(parts[1..])
  }

  function ParseHistory(raw: Option<string>): seq<string> {
    if raw == None || raw == Some("") then [] else Split(raw.value)
  }

  function HistoryToken(cursor: Option<string>): string {
    if cursor.None? then HISTORY_ROOT else cursor.value
  }

  datatype Links = Links(nextHistory: string, hasPrev: bool, prevCursor: string, prevHistory: string)

  /** A catalog page as its URL describes it. */
  datatype Request = Request(cursor: Option<string>, history: Option<string>)

  function LinksOf(q: Request): Links {
    var stack := ParseHistory(q.history);
    var next := Join(stack + [HistoryToken(q.cursor)]);
    if stack == [] then Links(next, false, "", "")
    else
      var top := stack[|stack| - 1];
      Links(next, true, if top == HISTORY_ROOT then "" else top, Join(stack[..|stack| - 1]))
  }

  method PageLinks(q: Request) returns (links: Links)
    ensures links == LinksOf(q)
  {
    var incoming := ParseHistory(q.history);
    var nextHistory := Join(incoming + [HistoryToken(q.cursor)]);
    var stack, token := incoming, None;
    if stack != [] {
      token := Some(stack[|stack| - 1]);
      stack := stack[..|stack| - 1];
    }
    var prevCursor := match token
      case None => ""
      case Some(t) => if t == HISTORY_ROOT then "" else t;
    links := Links(nextHistory, token.Some?, prevCursor, Join(stack));
  }

  /** Following the Next link to the page of `token`. */
  function ClickNext(q: Request, token: string): Request {
    Request(Some(token), Some(LinksOf(q).nextHistory))
  }

  /** Following the Prev link, which is disabled when there is nothing to go back to. An empty
      `cursor=` arrives as no cursor. */
  function ClickPrev(q: Request): Request {
    var links := LinksOf(q);
    if !links.hasPrev then q
    else Request(if links.prevCursor == "" then None else Some(links.prevCursor), Some(links.prevHistory))
  }

  /** A missing history and an empty one are the same text. */
  function HistoryText(q: Request): string {
    if q.history.None? then "" else q.history.value
  }

  /** What the handler guarantees of the page it renders: its own cursor token was accepted. */
  predicate Accepted(q: Request) {
    q.cursor.Some? ==> ListSafe(q.cursor.value)
  }

  // ----- Split and join -----

  lemma {:induction false} JoinSplit(s: string)
    ensures Join(Split(s)) == s
  {
    if s != "" {
      JoinSplit(s[1..]);
      var rest := Split(s[1..]);
      if s[0] == ',' {
        assert ([""] + rest)[1..] == rest;
      } else {
        var r := [[s[0]] + rest[0]] + rest[1..];
        assert r[1..] == rest[1..];
        if |rest| > 1 {
          assert Join(rest) == rest[0] + "," + Join(rest[1..]);
        }
      }
    }
  }

  lemma {:induction false} SplitAtom(t: string)
    requires ',' !in t
    ensures Split(t) == [t]
  {
    if t != "" {
      SplitAtom(t[1..]);
      assert t[0] in t;
      assert t == [t[0]] + t[1..];
    }
  }

  lemma {:induction false} SplitSnoc(h: string, t: string)
    requires ',' !in t
    ensures Split(h + "," + t) == Split(h) + [t]
  {
    if h == "" {
      assert (h + "," + t)[1..] == t;
      SplitAtom(t);
    } else {
      assert (h + "," + t)[1..] == h[1..] + "," + t;
      SplitSnoc(h[1..], t);
    }
  }

  lemma {:induction false} JoinSnoc(parts: seq<string>, t: string)
    requires parts != []
    ensures Join(parts + [t]) == Join(parts) + "," + t
  {
    if |parts| == 1 {
      assert (parts + [t])[1..] == [t];
    } else {
      assert (parts + [t])[1..] == parts[1..] + [t];
      JoinSnoc(parts[1..], t);
    }
  }

  lemma NextHistoryText(q: Request)
    ensures LinksOf(q).nextHistory
      == if HistoryText(q) == "" then HistoryToken(q.cursor)
         else HistoryText(q) + "," + HistoryToken(q.cursor)
  {
    if HistoryText(q) != "" {
      JoinSnoc(Split(HistoryText(q)), HistoryToken(q.cursor));
      JoinSplit(HistoryText(q));
    }
  }

  // ----- Prev undoes Next -----

  /** From any page with any incoming history text, well-formed or not. */
  lemma PrevUndoesNext(q: Request, token: string)
    requires Accepted(q)
    ensures
      var back := ClickPrev(ClickNext(q, token));
      back.cursor == q.cursor && HistoryText(back) == HistoryText(q)
    ensures LinksOf(ClickNext(q, token)).hasPrev
  {
    var h, t := HistoryText(q), HistoryToken(q.cursor);
    var next := ClickNext(q, token);
    NextHistoryText(q);
    if h == "" {
      SplitAtom(t);
      assert ParseHistory(next.history) == [t];
    } else {
      SplitSnoc(h, t);
      JoinSplit(h);
      assert ParseHistory(next.history) == Split(h) + [t];
      assert (Split(h) + [t])[..|Split(h)|] == Split(h);
    }
  }

  function NextAll(q: Request, tokens: seq<string>): Request
    decreases |tokens|
  {
    if tokens == [] then q else NextAll(ClickNext(q, tokens[0]), tokens[1..])
  }

  function PrevTimes(q: Request, k: nat): Request
    decreases k
  {
    if k == 0 then q else PrevTimes(ClickPrev(q), k - 1)
  }

  predicate SamePage(a: Request, b: Request) {
    a.cursor == b.cursor && HistoryText(a) == HistoryText(b)
  }

  lemma {:induction false} PrevRespectsSamePage(a: Request, b: Request, k: nat)
    requires SamePage(a, b)
    ensures SamePage(PrevTimes(a, k), PrevTimes(b, k))
    decreases k
  {
    if k > 0 {
      PrevRespectsSamePage(ClickPrev(a), ClickPrev(b), k - 1);
    }
  }

  lemma {:induction false} PrevTimesSnoc(q: Request, k: nat)
    ensures PrevTimes(q, k + 1) == ClickPrev(PrevTimes(q, k))
    decreases k
  {
    if k > 0 {
      PrevTimesSnoc(ClickPrev(q), k - 1);
    }
  }

  /** k times Next, then k times Prev, is the page it started from. */
  lemma {:induction false} NextThenPrevReturns(q: Request, tokens: seq<string>)
    requires Accepted(q) && forall t :: t in tokens ==> ListSafe(t)
    ensures SamePage(PrevTimes(NextAll(q, tokens), |tokens|), q)
    decreases |tokens|
  {
    if tokens != [] {
      assert tokens[0] in tokens;
      forall t | t in tokens[1..] ensures ListSafe(t) {
        assert t in tokens;
      }
      var first := ClickNext(q, tokens[0]);
      NextThenPrevReturns(first, tokens[1..]);
      PrevTimesSnoc(NextAll(q, tokens), |tokens| - 1);
      PrevRespectsSamePage(PrevTimes(NextAll(first, tokens[1..]), |tokens| - 1), first, 1);
      assert PrevTimes(first, 1) == ClickPrev(first) by {
        assert PrevTimes(ClickPrev(first), 0) == ClickPrev(first);
      }
      var last := PrevTimes(NextAll(q, tokens), |tokens| - 1);
      assert PrevTimes(last, 1) == ClickPrev(last) by {
        assert PrevTimes(ClickPrev(last), 0) == ClickPrev(last);
      }
      PrevUndoesNext(q, tokens[0]);
    }
  }

  // ----- The links implement a stack -----

  datatype Click = Next(token: string) | Prev

  /** Where a reader really is: the cursors of the pages behind, oldest first, and this page's. */
  datatype Trail = Trail(behind: seq<Option<string>>, current: Option<string>)

  function Walk(t: Trail, c: Click): Trail {
    match c
    case Next(token) => Trail(t.behind + [t.current], Some(token))
    case Prev =>
      if t.behind == [] then t
      else Trail(t.behind[..|t.behind| - 1], t.behind[|t.behind| - 1])
  }

  function Apply(q: Request, c: Click): Request {
    match c
    case Next(token) => ClickNext(q, token)
    case Prev => ClickPrev(q)
  }

  function WalkAll(t: Trail, clicks: seq<Click>): Trail {
    if clicks == [] then t else Walk(WalkAll(t, clicks[..|clicks| - 1]), clicks[|clicks| - 1])
  }

  function ApplyAll(q: Request, clicks: seq<Click>): Request {
    if clicks == [] then q else Apply(ApplyAll(q, clicks[..|clicks| - 1]), clicks[|clicks| - 1])
  }

  predicate SafeTrail(t: Trail) {
    && (t.current.Some? ==> ListSafe(t.current.value))
    && (forall i :: 0 <= i < |t.behind| && t.behind[i].Some? ==> ListSafe(t.behind[i].value))
  }

  function Tokens(behind: seq<Option<string>>): (r: seq<string>)
    ensures |r| == |behind|
  {
    if behind == [] then []
    else Tokens(behind[..|behind| - 1]) + [HistoryToken(behind[|behind| - 1])]
  }

  /** The URL of the page a trail leads to. */
  predicate Describes(q: Request, t: Trail) {
    SafeTrail(t) && q.cursor == t.current && HistoryText(q) == Join(Tokens(t.behind))
  }

  lemma {:induction false} ParseTokens(t: Trail)
    requires SafeTrail(t)
    ensures t.behind != [] ==> Join(Tokens(t.behind)) != "" && Split(Join(Tokens(t.behind))) == Tokens(t.behind)
    decreases |t.behind|
  {
    if t.behind != [] {
      var n := |t.behind| - 1;
      var older := Trail(t.behind[..n], t.current);
      ParseTokens(older);
      var token := HistoryToken(t.behind[n]);
      if n == 0 {
        SplitAtom(token);
        assert Tokens(t.behind) == [token];
      } else {
        JoinSnoc(Tokens(older.behind), token);
        SplitSnoc(Join(Tokens(older.behind)), token);
      }
    }
  }

  lemma StepKeepsDescription(q: Request, t: Trail, c: Click)
    requires Describes(q, t) && (c.Next? ==> ListSafe(c.token))
    ensures Describes(Apply(q, c), Walk(t, c))
    ensures LinksOf(q).hasPrev <==> t.behind != []
  {
    ParseTokens(t);
    assert ParseHistory(q.history) == Tokens(t.behind);
    match c {
      case Next(token) =>
        assert (t.behind + [t.current])[..|t.behind|] == t.behind;
      case Prev =>
        if t.behind != [] {
          var n := |t.behind| - 1;
          assert Tokens(t.behind)[..n] == Tokens(t.behind[..n]);
        }
    }
  }

  /** Any series of clicks from the first page: the URL alone always tells the page being read
      and the pages behind it, and Prev is offered exactly when there is one. */
  lemma {:induction false} LinksImplementStack(clicks: seq<Click>)
    requires forall c :: c in clicks && c.Next? ==> ListSafe(c.token)
    ensures
      var q, t := ApplyAll(Request(None, None), clicks), WalkAll(Trail([], None), clicks);
      Describes(q, t) && (LinksOf(q).hasPrev <==> t.behind != [])
  {
    var root := Request(None, None);
    if clicks == [] {
      StepKeepsDescription(root, Trail([], None), Prev);
    } else {
      var n := |clicks| - 1;
      assert forall c :: c in clicks[..n] ==> c in clicks;
      LinksImplementStack(clicks[..n]);
      assert clicks[n] in clicks;
      var q, t := ApplyAll(root, clicks[..n]), WalkAll(Trail([], None), clicks[..n]);
      StepKeepsDescription(q, t, clicks[n]);
      StepKeepsDescription(Apply(q, clicks[n]), Walk(t, clicks[n]), Prev);
    }
  }
}
