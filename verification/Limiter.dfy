/**
 The chat handler's rate limiter keeps at most RATE_LIMIT timestamps for each
 chat. Proved here: it answers as if it had kept them all, provided the clock
 does not step back, and it then never lets a burst through.
 */
module Limiter {

  type ChatId = string

  const RATE_LIMIT := 30
  const RATE_WINDOW := 60.0

  /** The timestamps still inside the window, in order. */
  function Within(ts: seq<real>, now: real): seq<real> {
    if ts == [] then []
    else Within(ts[..|ts| - 1], now) + if now - ts[|ts| - 1] < RATE_WINDOW then [ts[|ts| - 1]] else []
  }

  /** hits[-RATE_LIMIT:] */
  function Newest(ts: seq<real>): seq<real> {
    if |ts| <= RATE_LIMIT then ts else ts[|ts| - RATE_LIMIT..]
  }

  function HitsOf(rate: map<ChatId, seq<real>>, chat: ChatId): seq<real> {
    if chat in rate then rate[chat] else []
  }

  /** What one call leaves of a chat's list. */
  function Stored(hits: seq<real>, now: real): seq<real> {
    Newest(Within(hits, now) + [now])
  }

  predicate Refuses(hits: seq<real>, now: real) {
    |Within(hits, now) + [now]| > RATE_LIMIT
  }

  class ChatHandler {
    var rate: map<ChatId, seq<real>>

    constructor ()
      ensures rate == map[]
    {
      rate := map[];
    }

    method Limited(chat: ChatId, now: real) returns (limited: bool)
      modifies this
      ensures rate == old(rate)[chat := Stored(HitsOf(old(rate), chat), now)]
      ensures limited == Refuses(HitsOf(old(rate), chat), now)
    {
      var was := HitsOf(rate, chat);
      var hits := [];
      for i := 0 to |was|
        invariant hits == Within(was[..i], now)
      {
        assert was[..i + 1][..i] == was[..i];
        if now - was[i] < RATE_WINDOW {
          hits := hits + [was[i]];
        }
      }
      assert was[..|was|] == was;
      hits := hits + [now];
      rate := rate[chat := Newest(hits)];
      limited := |hits| > RATE_LIMIT;
    }
  }

  // ---- the whole log of calls, all chats together ----

  datatype Call = Call(chat: ChatId, at: real)

  function TimesOf(log: seq<Call>, chat: ChatId): seq<real> {
    if log == [] then []
    else TimesOf(log[..|log| - 1], chat) + if log[|log| - 1].chat == chat then [log[|log| - 1].at] else []
  }

  /** The table after the calls of a log. */
  function Replayed(log: seq<Call>): map<ChatId, seq<real>> {
    if log == [] then map[]
    else
      var rate, call := Replayed(log[..|log| - 1]), log[|log| - 1];
      rate[call.chat := Stored(HitsOf(rate, call.chat), call.at)]
  }

  function ReplayedTimes(ts: seq<real>): seq<real> {
    if ts == [] then [] else Stored(ReplayedTimes(ts[..|ts| - 1]), ts[|ts| - 1])
  }

  /** Calls on other chats do not touch a chat's list. */
  lemma {:induction false} ChatsAreApart(log: seq<Call>, chat: ChatId)
    ensures HitsOf(Replayed(log), chat) == ReplayedTimes(TimesOf(log, chat))
  {
    hide Stored;
    if log != [] {
      var rest, call := log[..|log| - 1], log[|log| - 1];
      ChatsAreApart(rest, chat);
      var ts := TimesOf(rest, chat);
      assert (ts + [call.at])[..|ts|] == ts;
      assert ts + [] == ts;
    }
  }

  predicate NonDecreasing(ts: seq<real>) {
    forall i, j | 0 <= i <= j < |ts| :: ts[i] <= ts[j]
  }

  /** Elements are out of the window up to k and inside it from k on. */
  predicate CutAt(ts: seq<real>, now: real, k: nat) {
    && k <= |ts|
    && (forall i | 0 <= i < k :: now - ts[i] >= RATE_WINDOW)
    && (forall i | k <= i < |ts| :: now - ts[i] < RATE_WINDOW)
  }

  /** With sorted timestamps the window cuts off a front part. */
  lemma {:induction false} WithinIsSuffix(ts: seq<real>, now: real) returns (k: nat)
    requires NonDecreasing(ts)
    ensures CutAt(ts, now, k) && Within(ts, now) == ts[k..]
  {
    if ts == [] {
      k := 0;
    } else {
      var n := |ts| - 1;
      k := WithinIsSuffix(ts[..n], now);
      if now - ts[n] < RATE_WINDOW {
        assert ts[..n][k..] + [ts[n]] == ts[k..];
        assert CutAt(ts, now, k);
      } else {
        assert CutAt(ts, now, n + 1);
        k := n + 1;
      }
    }
  }

  lemma SuffixSorted(ts: seq<real>, m: nat)
    requires NonDecreasing(ts) && m <= |ts|
    ensures NonDecreasing(ts[m..])
  {}

  lemma SuffixCut(ts: seq<real>, now: real, m: nat, k: nat, k': nat)
    requires m <= |ts| && CutAt(ts, now, k) && CutAt(ts[m..], now, k')
    ensures m + k' == if k > m then k else m
  {
    var j := m + k';
    if j < |ts| {
      assert ts[m..][k'] == ts[j];
    }
    if k' > 0 {
      assert ts[m..][k' - 1] == ts[j - 1];
    }
  }

  lemma NewestSuffix(ts: seq<real>, k: nat)
    requires k <= |ts|
    ensures Newest(ts[k..]) == ts[if |ts| - k <= RATE_LIMIT then k else |ts| - RATE_LIMIT..]
  {
    if |ts| - k > RATE_LIMIT {
      SliceOfSlice(ts, k, |ts| - k - RATE_LIMIT);
    }
  }

  lemma SliceOfSlice(ts: seq<real>, m: nat, k: nat)
    requires m + k <= |ts|
    ensures ts[m..][k..] == ts[m + k..]
  {}

  /** Truncating and filtering commute. */
  lemma NewestWithin(ts: seq<real>, now: real)
    requires NonDecreasing(ts)
    ensures Within(Newest(ts), now) == Newest(Within(ts, now))
  {
    hide CutAt, NonDecreasing, Within;
    var k := WithinIsSuffix(ts, now);
    NewestSuffix(ts, k);
    if |ts| > RATE_LIMIT {
      var m := |ts| - RATE_LIMIT;
      SuffixSorted(ts, m);
      var k' := WithinIsSuffix(ts[m..], now);
      SuffixCut(ts, now, m, k, k');
      SliceOfSlice(ts, m, k');
    }
  }

  /** What an earlier call filtered out a later one would have filtered out too. */
  lemma {:induction false} WithinTwice(ts: seq<real>, before: real, now: real)
    requires before <= now
    ensures Within(Within(ts, before), now) == Within(ts, now)
  {
    if ts != [] {
      var n := |ts| - 1;
      WithinTwice(ts[..n], before, now);
      var w := Within(ts[..n], before);
      assert (w + [ts[n]])[..|w|] == w;
      assert w + [] == w;
    }
  }

  lemma NewestTwice(ts: seq<real>, now: real)
    ensures Newest(Newest(ts) + [now]) == Newest(ts + [now])
  {}

  /** A chat's list holds the newest of its calls that are still in the window. */
  lemma {:induction false} StoredIsNewest(ts: seq<real>)
    requires NonDecreasing(ts) && ts != []
    ensures ReplayedTimes(ts) == Newest(Within(ts, ts[|ts| - 1]))
    decreases |ts|, 0
  {
    var n := |ts| - 1;
    TruncationIsInvisible(ts[..n], ts[n]);
    hide Newest;
    NewestTwice(Within(ts[..n], ts[n]), ts[n]);
  }

  /** Filtering the truncated list gives the newest of what filtering all the calls gives. */
  lemma {:induction false} TruncationIsInvisible(ts: seq<real>, now: real)
    requires NonDecreasing(ts) && (ts != [] ==> ts[|ts| - 1] <= now)
    ensures Within(ReplayedTimes(ts), now) == Newest(Within(ts, now))
    decreases |ts|, 1
  {
    if ts != [] {
      var last := ts[|ts| - 1];
      StoredIsNewest(ts);
      var k := WithinIsSuffix(ts, last);
      SuffixSorted(ts, k);
      NewestWithin(Within(ts, last), now);
      WithinTwice(ts, last, now);
    }
  }

  /** Earlier calls of the chat, in the complete log, less than a minute ago. */
  function Recent(log: seq<Call>, chat: ChatId, now: real): nat {
    |set i | 0 <= i < |log| && log[i].chat == chat && now - log[i].at < 60.0|
  }

  lemma {:induction false} RecentAreWithin(log: seq<Call>, chat: ChatId, now: real)
    ensures |Within(TimesOf(log, chat), now)| == Recent(log, chat, now)
  {
    if log != [] {
      var n := |log| - 1;
      RecentAreWithin(log[..n], chat, now);
      var ts := TimesOf(log[..n], chat);
      assert (ts + [log[n].at])[..|ts|] == ts && ts + [] == ts;
      OneMoreRecent(log, chat, now);
      hide Recent;
    }
  }

  lemma OneMoreRecent(log: seq<Call>, chat: ChatId, now: real)
    requires log != []
    ensures var n := |log| - 1;
            Recent(log, chat, now)
              == Recent(log[..n], chat, now) + if log[n].chat == chat && now - log[n].at < 60.0 then 1 else 0
  {
    var n := |log| - 1;
    var all := set i | 0 <= i < |log| && log[i].chat == chat && now - log[i].at < 60.0;
    var before := set i | 0 <= i < n && log[..n][i].chat == chat && now - log[..n][i].at < 60.0;
    assert all == before + if log[n].chat == chat && now - log[n].at < 60.0 then {n} else {};
  }

  /**
   With a clock that does not step back, the call is refused exactly when the
   complete log holds at least thirty earlier calls of the chat in the last minute.
   */
  lemma AnswersLikeTheFullLog(log: seq<Call>, chat: ChatId, now: real)
    requires NonDecreasing(TimesOf(log, chat) + [now])
    ensures Refuses(HitsOf(Replayed(log), chat), now) <==> Recent(log, chat, now) >= 30
  {
    var ts := TimesOf(log, chat);
    ChatsAreApart(log, chat);
    assert forall i | 0 <= i < |ts| :: (ts + [now])[i] == ts[i] <= (ts + [now])[|ts|];
    TruncationIsInvisible(ts, now);
    RecentAreWithin(log, chat, now);
  }

  lemma {:induction false} WithinConcat(a: seq<real>, b: seq<real>, now: real)
    ensures Within(a + b, now) == Within(a, now) + Within(b, now)
  {
    if b == [] {
      assert a + b == a && Within(a, now) + [] == Within(a, now);
    } else {
      var n := |b| - 1;
      WithinConcat(a, b[..n], now);
      assert (a + b)[..|a| + n] == a + b[..n];
    }
  }

  lemma {:induction false} FilteredCount(ts: seq<real>, before: real, now: real)
    ensures |Within(Within(ts, before), now)| <= |Within(ts, now)|
  {
    if ts != [] {
      var n := |ts| - 1;
      FilteredCount(ts[..n], before, now);
      var w := Within(ts[..n], before);
      assert (w + [ts[n]])[..|w|] == w;
      assert w + [] == w;
    }
  }

  /** Filtering and truncating only ever lose timestamps. */
  lemma {:induction false} StoredCount(ts: seq<real>, now: real)
    ensures |Within(ReplayedTimes(ts), now)| <= |Within(ts, now)|
  {
    if ts != [] {
      var n := |ts| - 1;
      StoredCount(ts[..n], now);
      var hits := ReplayedTimes(ts[..n]);
      FilteredCount(hits, ts[n], now);
      var all := Within(hits, ts[n]) + [ts[n]];
      WithinConcat(Within(hits, ts[n]), [ts[n]], now);
      WithinConcat(ts[..n], [ts[n]], now);
      assert ts == ts[..n] + [ts[n]];
      var m := |all| - |Newest(all)|;
      assert all == all[..m] + Newest(all);
      WithinConcat(all[..m], Newest(all), now);
    }
  }

  /** Whatever the clock does, a call is never refused that the complete log would admit. */
  lemma NeverRefusesWrongly(log: seq<Call>, chat: ChatId, now: real)
    ensures Refuses(HitsOf(Replayed(log), chat), now) ==> Recent(log, chat, now) >= 30
  {
    ChatsAreApart(log, chat);
    StoredCount(TimesOf(log, chat), now);
    RecentAreWithin(log, chat, now);
  }

  /** A clock that steps back shows the truncation: thirty recent calls are forgotten. */
  lemma ClockSteppingBackForgets(zeros: seq<real>)
    requires |zeros| == RATE_LIMIT && forall i | 0 <= i < |zeros| :: zeros[i] == 0.0
    ensures !Refuses(ReplayedTimes(zeros + [100.0]), 0.0)
    ensures |Within(zeros + [100.0], 0.0)| >= RATE_LIMIT
  {
    var longer := zeros + [100.0];
    assert longer[..RATE_LIMIT] == zeros;
    AllOrNothing(zeros, 0.0);
    AllOrNothing(zeros, 100.0);
    StoredIsNewest(zeros);
    assert Within(zeros, 100.0) == [] && Within(zeros, 0.0) == zeros;
    hide Within;
    assert Stored(zeros, 100.0) == [100.0];
    AllOrNothing([100.0], 0.0);
    AllOrNothing(longer, 0.0);
  }

  lemma {:induction false} AllOrNothing(ts: seq<real>, now: real)
    ensures (forall i | 0 <= i < |ts| :: now - ts[i] < RATE_WINDOW) ==> Within(ts, now) == ts
    ensures (forall i | 0 <= i < |ts| :: now - ts[i] >= RATE_WINDOW) ==> Within(ts, now) == []
  {
    if ts != [] {
      var n := |ts| - 1;
      AllOrNothing(ts[..n], now);
      assert ts[..n] + [ts[n]] == ts;
    }
  }

  // ---- what the limiter lets through ----

  /** Calls of one chat, each with the answer it got; `false` is let through. */
  datatype Answered = Answered(at: real, limited: bool)

  /** The answers the limiter gives to a chat's calls. */
  function Answers(ts: seq<real>): (r: seq<Answered>)
    ensures |r| == |ts|
  {
    if ts == [] then []
    else
      var n := |ts| - 1;
      Answers(ts[..n]) + [Answered(ts[n], Refuses(ReplayedTimes(ts[..n]), ts[n]))]
  }

  /** Calls let through at or after a moment. */
  function AcceptedSince(calls: seq<Answered>, start: real): nat {
    if calls == [] then 0
    else
      var c := calls[|calls| - 1];
      AcceptedSince(calls[..|calls| - 1], start) + if c.at >= start && !c.limited then 1 else 0
  }

  lemma {:induction false} AcceptedAreRecent(ts: seq<real>, start: real, now: real)
    requires now - start < RATE_WINDOW
    ensures AcceptedSince(Answers(ts), start) <= |Within(ts, now)|
  {
    if ts != [] {
      var n := |ts| - 1;
      AcceptedAreRecent(ts[..n], start, now);
      assert Answers(ts)[..n] == Answers(ts[..n]);
    }
  }

  /** No stretch of less than a minute contains more than thirty accepted calls. */
  lemma {:induction false} NoBurst(ts: seq<real>, start: real)
    requires NonDecreasing(ts)
    requires forall i | 0 <= i < |ts| :: ts[i] < start + 60.0
    ensures AcceptedSince(Answers(ts), start) <= 30
  {
    if ts != [] {
      var n := |ts| - 1;
      NoBurst(ts[..n], start);
      assert Answers(ts)[..n] == Answers(ts[..n]);
      TruncationIsInvisible(ts[..n], ts[n]);
      AcceptedAreRecent(ts[..n], start, ts[n]);
    }
  }
}
