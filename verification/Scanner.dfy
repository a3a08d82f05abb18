/**
 The bounded brace scanner that picks JSON objects out of agent prose. Parsing
 itself is a parameter: it answers None for text that does not parse, or that
 parses to something other than an object.
 */
module Scanner {
  import opened Contract

  /** Opening braces less closing ones. */
  function Depth(s: string): int {
    if s == "" then 0
    else Depth(s[..|s| - 1]) + if s[|s| - 1] == '{' then 1 else if s[|s| - 1] == '}' then -1 else 0
  }

  /** The first n characters close the brace that s starts with, and no fewer do. */
  predicate ClosesAt(s: string, n: nat) {
    && 0 < n <= |s| && s[0] == '{' && Depth(s[..n]) == 0
    && forall k | 0 < k < n :: Depth(s[..k]) > 0
  }

  ghost predicate ClosesWithin(s: string, window: int) {
    exists n: nat | n <= window :: ClosesAt(s, n)
  }

  lemma ClosesOnce(s: string, m: nat, n: nat)
    requires ClosesAt(s, m) && ClosesAt(s, n)
    ensures m == n
  {}

  /** What the scan finds in a text: at each opening brace the object it starts, if one closes in time. */
  ghost function Found<T>(s: string, window: int, parse: string -> Option<T>): seq<T>
    decreases |s|
  {
    if s == "" then []
    else if ClosesWithin(s, window) then
      var n: nat :| n <= window && ClosesAt(s, n);
      Parsed(parse(s[..n])) + Found(s[n..], window, parse)
    else Found(s[1..], window, parse)
  }

  function Parsed<T>(r: Option<T>): seq<T> {
    match r case Some(v) => [v] case None => []
  }

  /** Where the first brace at or after i is, or the length of the text. */
  method Find(ctx: string, i: nat) returns (start: nat)
    requires i <= |ctx|
    ensures i <= start <= |ctx|
    ensures forall k | i <= k < start :: ctx[k] != '{'
    ensures start < |ctx| ==> ctx[start] == '{'
  {
    start := i;
    while start < |ctx| && ctx[start] != '{'
      invariant i <= start <= |ctx|
      invariant forall k | i <= k < start :: ctx[k] != '{'
    {
      start := start + 1;
    }
  }

  method IterJsonObjects<T>(ctx: string, maxWindow: int, parse: string -> Option<T>) returns (out: seq<T>)
    ensures out == Found(ctx, maxWindow, parse)
  {
    hide Found, ClosesAt, ClosesWithin;
    out := [];
    var i := 0;
    assert ctx[0..] == ctx;
    while i < |ctx|
      invariant 0 <= i <= |ctx|
      invariant Found(ctx, maxWindow, parse) == out + Found(ctx[i..], maxWindow, parse)
      decreases |ctx| - i
    {
      var start := Find(ctx, i);
      SkipProse(ctx, i, start, maxWindow, parse);
      if start == |ctx| {
        i := start;
        break;
      }
      var end := MatchingEnd(ctx, start, maxWindow);
      ghost var rest := ctx[start..];
      if end == -1 {
        FoundLater(rest, maxWindow, parse);
        assert rest[1..] == ctx[start + 1..];
        i := start + 1;
      } else {
        assert ctx[start..end] == rest[..end - start];
        FoundFirst(rest, maxWindow, parse, end - start);
        assert rest[end - start..] == ctx[end..];
        out := out + Parsed(parse(ctx[start..end]));
        i := end;
      }
    }
    assert ctx[i..] == "";
    FoundNone(maxWindow, parse);
  }

  /** The inner loop: one past the brace that closes the one at start, or -1. */
  method MatchingEnd(ctx: string, start: nat, maxWindow: int) returns (end: int)
    requires start < |ctx| && ctx[start] == '{'
    ensures end == -1 ==> !ClosesWithin(ctx[start..], maxWindow)
    ensures end != -1 ==> start < end <= |ctx| && end - start <= maxWindow && ClosesAt(ctx[start..], end - start)
  {
    var depth := 0;
    var stop := if |ctx| < start + maxWindow then |ctx| else start + maxWindow;
    ghost var rest := ctx[start..];
    var j := start;
    while j < stop
      invariant start <= j && (start <= stop ==> j <= stop)
      invariant j <= |ctx| && depth == Depth(rest[..j - start])
      invariant forall k | 0 < k <= j - start :: Depth(rest[..k]) > 0
      decreases stop - j
    {
      assert rest[..j + 1 - start][..j - start] == rest[..j - start];
      if ctx[j] == '{' {
        depth := depth + 1;
      } else if ctx[j] == '}' {
        depth := depth - 1;
        if depth == 0 {
          return j + 1;
        }
      }
      j := j + 1;
    }
    return -1;
  }

  lemma FoundNone<T>(window: int, parse: string -> Option<T>)
    ensures Found("", window, parse) == []
  {}

  lemma FoundLater<T>(s: string, window: int, parse: string -> Option<T>)
    requires s != "" && !ClosesWithin(s, window)
    ensures Found(s, window, parse) == Found(s[1..], window, parse)
  {}

  lemma FoundFirst<T>(s: string, window: int, parse: string -> Option<T>, n: nat)
    requires n <= window && ClosesAt(s, n)
    ensures Found(s, window, parse) == Parsed(parse(s[..n])) + Found(s[n..], window, parse)
  {
    forall m: nat | m <= window && ClosesAt(s, m)
      ensures m == n
    {
      ClosesOnce(s, m, n);
    }
  }

  lemma {:induction false} SkipProse<T>(ctx: string, i: nat, start: nat, window: int, parse: string -> Option<T>)
    requires i <= start <= |ctx| && forall k | i <= k < start :: ctx[k] != '{'
    ensures Found(ctx[i..], window, parse) == Found(ctx[start..], window, parse)
    decreases start - i
  {
    if i < start {
      assert ctx[i..][1..] == ctx[i + 1..];
      SkipProse(ctx, i + 1, start, window, parse);
    }
  }

  // ---- the round trip ----

  /** Prose before an object; it may hold stray opening braces but closes none. */
  predicate Gap(s: string) {
    '}' !in s
  }

  /** Braces balance, and only the last character closes the first. */
  predicate Whole(s: string) {
    ClosesAt(s, |s|)
  }

  datatype Piece = Piece(gap: string, body: string)

  predicate WellFormed(ps: seq<Piece>, window: int) {
    forall p | p in ps :: Gap(p.gap) && Whole(p.body) && |p.body| <= window
  }

  function Text(ps: seq<Piece>, last: string): string {
    if ps == [] then last else ps[0].gap + ps[0].body + Text(ps[1..], last)
  }

  function Objects<T>(ps: seq<Piece>, parse: string -> Option<T>): seq<T> {
    if ps == [] then [] else Parsed(parse(ps[0].body)) + Objects(ps[1..], parse)
  }

  /** No prefix closes more braces than it opens. */
  predicate NeverBelow(s: string) {
    forall k | 0 <= k <= |s| :: Depth(s[..k]) >= 0
  }

  lemma {:induction false} DepthConcat(a: string, b: string)
    ensures Depth(a + b) == Depth(a) + Depth(b)
  {
    if b == "" {
      assert a + b == a;
    } else {
      DepthConcat(a, b[..|b| - 1]);
      assert (a + b)[..|a + b| - 1] == a + b[..|b| - 1];
    }
  }

  lemma NeverBelowConcat(a: string, b: string)
    requires NeverBelow(a) && NeverBelow(b)
    ensures NeverBelow(a + b)
  {
    forall k | 0 <= k <= |a + b|
      ensures Depth((a + b)[..k]) >= 0
    {
      if k <= |a| {
        assert (a + b)[..k] == a[..k];
      } else {
        assert (a + b)[..k] == a + b[..k - |a|];
        DepthConcat(a, b[..k - |a|]);
        assert a[..|a|] == a;
      }
    }
  }

  lemma {:induction false} GapNeverBelow(s: string)
    requires Gap(s)
    ensures NeverBelow(s)
  {
    if s != "" {
      var n := |s| - 1;
      GapNeverBelow(s[..n]);
      forall k | 0 <= k <= |s|
        ensures Depth(s[..k]) >= 0
      {
        if k <= n {
          assert s[..k] == s[..n][..k];
        } else {
          assert s[..k] == s;
          assert s[..n][..n] == s[..n];
        }
      }
    }
  }

  lemma {:induction false} TextNeverBelow(ps: seq<Piece>, last: string, window: int)
    requires WellFormed(ps, window) && Gap(last)
    ensures NeverBelow(Text(ps, last))
  {
    if ps == [] {
      GapNeverBelow(last);
    } else {
      TextNeverBelow(ps[1..], last, window);
      GapNeverBelow(ps[0].gap);
      assert NeverBelow(ps[0].body) by {
        assert ps[0] in ps && ps[0].body[..|ps[0].body|] == ps[0].body;
      }
      NeverBelowConcat(ps[0].gap, ps[0].body);
      NeverBelowConcat(ps[0].gap + ps[0].body, Text(ps[1..], last));
    }
  }

  /** A brace in front of text that never dips below zero is never closed. */
  lemma StrayNeverCloses(s: string, n: nat)
    requires s != "" && s[0] == '{' && NeverBelow(s[1..]) && 0 < n <= |s|
    ensures Depth(s[..n]) > 0
  {
    assert s[..n] == [s[0]] + s[1..][..n - 1];
    DepthConcat([s[0]], s[1..][..n - 1]);
    assert [s[0]][..0] == "";
  }

  lemma {:induction false} SkipGap<T>(gap: string, rest: string, window: int, parse: string -> Option<T>)
    requires Gap(gap) && NeverBelow(rest)
    ensures Found(gap + rest, window, parse) == Found(rest, window, parse)
  {
    var s := gap + rest;
    if gap == "" {
      assert s == rest;
    } else {
      assert s[1..] == gap[1..] + rest;
      GapNeverBelow(gap[1..]);
      NeverBelowConcat(gap[1..], rest);
      forall n: nat | n <= window
        ensures !ClosesAt(s, n)
      {
        if 0 < n <= |s| && s[0] == '{' {
          StrayNeverCloses(s, n);
        }
      }
      SkipGap(gap[1..], rest, window, parse);
    }
  }

  lemma ClosesInFront(a: string, b: string)
    requires Whole(a)
    ensures ClosesAt(a + b, |a|)
  {
    assert (a + b)[..|a|] == a == a[..|a|];
    assert forall k | 0 < k < |a| :: (a + b)[..k] == a[..k];
  }

  /**
   Whatever stray opening braces the prose holds, the scan returns exactly the
   objects that parse, in order.
   */
  lemma {:induction false} ScanRoundTrip<T>(ps: seq<Piece>, last: string, window: int, parse: string -> Option<T>)
    requires WellFormed(ps, window) && Gap(last)
    ensures Found(Text(ps, last), window, parse) == Objects(ps, parse)
  {
    if ps == [] {
      GapNeverBelow("");
      SkipGap(last, "", window, parse);
      assert last + "" == last;
    } else {
      var p, rest := ps[0], Text(ps[1..], last);
      assert p in ps;
      var s := p.body + rest;
      TextNeverBelow([Piece("", p.body)] + ps[1..], last, window);
      assert Text([Piece("", p.body)] + ps[1..], last) == s by {
        assert ([Piece("", p.body)] + ps[1..])[1..] == ps[1..];
        assert "" + p.body + rest == s;
      }
      SkipGap(p.gap, s, window, parse);
      assert Text(ps, last) == p.gap + s;
      ClosesInFront(p.body, rest);
      FoundFirst(s, window, parse, |p.body|);
      assert s[..|p.body|] == p.body && s[|p.body|..] == rest;
      ScanRoundTrip(ps[1..], last, window, parse);
    }
  }

  // ---- what counts as whole, without counting ----

  /** Text with balanced braces: characters that are no brace, and braces around more of it. */
  datatype Item = Plain(c: char) | Braced(items: seq<Item>)

  function Print(item: Item): string {
    match item
    case Plain(c) => [c]
    case Braced(items) => "{" + PrintAll(items) + "}"
  }

  function PrintAll(items: seq<Item>): string {
    if items == [] then "" else Print(items[0]) + PrintAll(items[1..])
  }

  predicate Proper(item: Item) {
    match item
    case Plain(c) => c != '{' && c != '}'
    case Braced(items) => forall i | i in items :: Proper(i)
  }

  /** The depth is the number of opening braces less the number of closing ones. */
  lemma {:induction false} DepthCounts(s: string)
    ensures Depth(s) == |set i | 0 <= i < |s| && s[i] == '{'| - |set i | 0 <= i < |s| && s[i] == '}'|
  {
    if s != "" {
      var n := |s| - 1;
      DepthCounts(s[..n]);
      OneMore(s, '{');
      OneMore(s, '}');
    }
  }

  lemma OneMore(s: string, c: char)
    requires s != ""
    ensures var n := |s| - 1;
            |set i | 0 <= i < |s| && s[i] == c|
              == |set i | 0 <= i < n && s[..n][i] == c| + if s[n] == c then 1 else 0
  {
    var n := |s| - 1;
    var all, before := set i | 0 <= i < |s| && s[i] == c, set i | 0 <= i < n && s[..n][i] == c;
    assert all == before + if s[n] == c then {n} else {};
  }

  lemma DepthOne(c: char)
    ensures Depth([c]) == if c == '{' then 1 else if c == '}' then -1 else 0
  {
    assert [c][..0] == "";
  }

  /** Braces around balanced text open at the first character and close at the last, not before. */
  lemma BracesClose(b: string)
    requires NeverBelow(b) && Depth(b) == 0
    ensures Whole("{" + b + "}")
  {
    var s := "{" + b + "}";
    DepthOne('{');
    DepthOne('}');
    forall k | 0 < k < |s|
      ensures Depth(s[..k]) > 0
    {
      assert s[..k] == "{" + b[..k - 1];
      DepthConcat("{", b[..k - 1]);
    }
    DepthConcat("{", b);
    DepthConcat("{" + b, "}");
    assert s[..|s|] == s;
  }

  lemma WholeBalances(s: string)
    requires Whole(s)
    ensures NeverBelow(s) && Depth(s) == 0
  {
    assert s[..|s|] == s && s[..0] == "";
  }

  lemma {:induction false} PrintBalances(items: seq<Item>)
    requires forall i | i in items :: Proper(i)
    ensures NeverBelow(PrintAll(items)) && Depth(PrintAll(items)) == 0
  {
    if items != [] {
      assert items[0] in items && forall i | i in items[1..] :: i in items;
      PrintBalances(items[1..]);
      var first := Print(items[0]);
      match items[0] {
        case Plain(c) =>
          DepthOne(c);
          assert first[..0] == "" && first[..1] == first;
        case Braced(inner) =>
          PrintBalances(inner);
          BracesClose(PrintAll(inner));
          WholeBalances(first);
      }
      NeverBelowConcat(first, PrintAll(items[1..]));
      DepthConcat(first, PrintAll(items[1..]));
    }
  }

  /** Where the first brace of balanced text that starts with one is closed. */
  lemma {:induction false} FirstClose(s: string, k: nat) returns (n: nat)
    requires 0 < k <= |s| && Depth(s) == 0 && forall j | 0 < j < k :: Depth(s[..j]) != 0
    ensures 0 < n <= |s| && Depth(s[..n]) == 0 && forall j | 0 < j < n :: Depth(s[..j]) != 0
    decreases |s| - k
  {
    if Depth(s[..k]) == 0 {
      n := k;
    } else {
      assert s[..|s|] == s;
      n := FirstClose(s, k + 1);
    }
  }

  lemma DepthFrom(s: string, i: nat, j: nat)
    requires i <= j <= |s|
    ensures Depth(s[i..j]) == Depth(s[..j]) - Depth(s[..i])
  {
    assert s[..j] == s[..i] + s[i..j];
    DepthConcat(s[..i], s[i..j]);
  }

  /** What lies between two places of equal depth, and never dips below it in between, balances. */
  lemma Between(s: string, i: nat, j: nat)
    requires i <= j <= |s| && Depth(s[..i]) == Depth(s[..j])
    requires forall k | i <= k <= j :: Depth(s[..k]) >= Depth(s[..i])
    ensures NeverBelow(s[i..j]) && Depth(s[i..j]) == 0
  {
    DepthFrom(s, i, j);
    forall k | 0 <= k <= j - i
      ensures Depth(s[i..j][..k]) >= 0
    {
      assert s[i..j][..k] == s[i..i + k];
      DepthFrom(s, i, i + k);
    }
  }

  lemma {:induction false} Balanced(s: string) returns (items: seq<Item>)
    requires NeverBelow(s) && Depth(s) == 0
    ensures (forall i | i in items :: Proper(i)) && PrintAll(items) == s
    decreases |s|
  {
    if s == "" {
      return [];
    }
    DepthOne(s[0]);
    assert s[..1] == [s[0]] && s[..|s|] == s && s[..0] == "";
    var n, first := 1, Plain(s[0]);
    if s[0] == '{' {
      n := FirstClose(s, 1);
      DepthFrom(s, n - 1, n);
      assert s[n - 1..n] == [s[n - 1]];
      DepthOne(s[n - 1]);
      Between(s, 1, n - 1);
      var inner := Balanced(s[1..n - 1]);
      first := Braced(inner);
      assert Print(first) == "{" + s[1..n - 1] + "}" == s[..n];
    }
    Between(s, n, |s|);
    assert s[n..|s|] == s[n..];
    var rest := Balanced(s[n..]);
    items := [first] + rest;
    assert items[1..] == rest && s == s[..n] + s[n..];
  }

  /** Whole text is exactly what the grammar prints between braces. */
  lemma WholeIffPrinted(s: string)
    ensures Whole(s) <==> exists items :: (forall i | i in items :: Proper(i)) && s == Print(Braced(items))
  {
    if Whole(s) {
      WholeBalances(s);
      var items := Balanced(s);
      OnlyOne(s, items);
    }
    if items :| (forall i | i in items :: Proper(i)) && s == Print(Braced(items)) {
      PrintBalances(items);
      BracesClose(PrintAll(items));
    }
  }

  /** A whole text is one item, since its first brace closes nowhere but at its end. */
  lemma OnlyOne(s: string, items: seq<Item>)
    requires Whole(s) && (forall i | i in items :: Proper(i)) && PrintAll(items) == s
    ensures exists inner :: (forall i | i in inner :: Proper(i)) && s == Print(Braced(inner))
  {
    var first := items[0];
    assert first in items && s == Print(first) + PrintAll(items[1..]) && s[0] == Print(first)[0];
    assert first.Braced?;
    PrintBalances(first.items);
    BracesClose(PrintAll(first.items));
    var n := |Print(first)|;
    assert s[..n] == Print(first) == Print(first)[..n];
  }

  datatype Quoted = Quoted(gap: string, items: seq<Item>)

  function Pieces(qs: seq<Quoted>): seq<Piece> {
    seq(|qs|, i requires 0 <= i < |qs| => Piece(qs[i].gap, Print(Braced(qs[i].items))))
  }

  /**
   Objects printed from the grammar, each within the window, among prose without
   closing braces: the scan returns exactly those that parse, in order.
   */
  lemma PrintedRoundTrip<T>(qs: seq<Quoted>, last: string, window: int, parse: string -> Option<T>)
    requires '}' !in last
    requires forall q | q in qs ::
               '}' !in q.gap && |Print(Braced(q.items))| <= window && forall i | i in q.items :: Proper(i)
    ensures Found(Text(Pieces(qs), last), window, parse) == Objects(Pieces(qs), parse)
  {
    forall p | p in Pieces(qs)
      ensures Gap(p.gap) && Whole(p.body) && |p.body| <= window
    {
      var k :| 0 <= k < |qs| && Pieces(qs)[k] == p;
      assert qs[k] in qs;
      WholeIffPrinted(p.body);
    }
    ScanRoundTrip(Pieces(qs), last, window, parse);
  }
}
