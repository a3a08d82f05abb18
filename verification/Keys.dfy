/**
 Idempotency keys. The engine hashes "workflow:task:attempt"; the hash is taken
 as injective, so a key is modelled by the text that is hashed.
 */
module Keys {
  import opened Contract

  const COLON: char := ':'

  /** Decimal rendering of a number, most significant digit first. */
  function Decimal(n: nat): (s: string)
    ensures |s| > 0 && COLON !in s
  {
    if n < 10 then [Digit(n)] else Decimal(n / 10) + [Digit(n % 10)]
  }

  function Digit(n: nat): (c: char)
    requires n < 10
    ensures c != COLON
  {
    "0123456789"[n]
  }

  function Key(workflow: string, task: TaskId, attempt: nat): string {
    workflow + [COLON] + task + [COLON] + Decimal(attempt)
  }

  lemma {:induction false} DecimalInjective(m: nat, n: nat)
    requires Decimal(m) == Decimal(n)
    ensures m == n
  {
    var s := Decimal(m);
    assert s[|s| - 1] == Digit(m % 10);
    assert s[|s| - 1] == Digit(n % 10);
    assert m % 10 == n % 10;
    if m < 10 || n < 10 {
      assert |s| == 1;
    } else {
      assert s[..|s| - 1] == Decimal(m / 10);
      assert s[..|s| - 1] == Decimal(n / 10);
      DecimalInjective(m / 10, n / 10);
    }
  }

  /** The number a row of digits stands for, each by its distance from '0'. */
  function Read(s: string): int {
    if s == "" then 0 else 10 * Read(s[..|s| - 1]) + (s[|s| - 1] as int - '0' as int)
  }

  /** Reading the text gives the number back, and no digit is wasted. */
  lemma {:induction false} DecimalReads(n: nat)
    ensures Read(Decimal(n)) == n
    ensures forall c | c in Decimal(n) :: '0' <= c <= '9'
    ensures n > 0 ==> Decimal(n)[0] != '0'
  {
    var s := Decimal(n);
    DigitReads(n % 10);
    if n >= 10 {
      DecimalReads(n / 10);
      assert s[..|s| - 1] == Decimal(n / 10);
    } else {
      assert s[..|s| - 1] == "" && n % 10 == n;
    }
  }

  lemma DigitReads(n: nat)
    requires n < 10
    ensures Digit(n) as int - '0' as int == n && '0' <= Digit(n) <= '9'
    ensures n > 0 ==> Digit(n) != '0'
  {
    var digits := "0123456789";
    assert digits[0] == '0' && digits[1] == '1' && digits[2] == '2' && digits[3] == '3' && digits[4] == '4';
    assert digits[5] == '5' && digits[6] == '6' && digits[7] == '7' && digits[8] == '8' && digits[9] == '9';
  }

  /** Three parts between colons, the last a number: what is hashed for a key. */
  lemma KeyText(w: string, t: TaskId, a: nat)
    ensures exists s :: Key(w, t, a) == w + ":" + t + ":" + s && Read(s) == a && forall c | c in s :: '0' <= c <= '9'
  {
    DecimalReads(a);
    assert Key(w, t, a) == w + ":" + t + ":" + Decimal(a);
  }

  /** Two texts with the same last colon agree on both sides of it. */
  lemma SplitAtLastColon(a: string, x: string, b: string, y: string)
    requires COLON !in x && COLON !in y
    requires a + [COLON] + x == b + [COLON] + y
    ensures a == b && x == y
  {
    var s := a + [COLON] + x;
    assert s[|a|] == COLON && s[|b|] == COLON;
    assert forall i | |a| < i < |s| :: s[i] == x[i - |a| - 1];
    assert forall i | |b| < i < |s| :: s[i] == y[i - |b| - 1];
    assert |a| == |b|;
    assert s[..|a|] == a && s[..|b|] == b;
    assert s[|a| + 1..] == x && s[|b| + 1..] == y;
  }

  /** Within one workflow a key determines the task and the attempt, colons or not. */
  lemma KeyInjectiveInWorkflow(w: string, t: TaskId, a: nat, t': TaskId, a': nat)
    requires Key(w, t, a) == Key(w, t', a')
    ensures t == t' && a == a'
  {
    SplitAtLastColon(w + [COLON] + t, Decimal(a), w + [COLON] + t', Decimal(a'));
    DecimalInjective(a, a');
    assert (w + [COLON] + t)[|w| + 1..] == t;
    assert (w + [COLON] + t')[|w| + 1..] == t';
  }

  /** One id continues the other after a colon. */
  predicate Overlap(w: string, w': string) {
    w + [COLON] <= w' || w' + [COLON] <= w
  }

  lemma SharedKeyOverlaps(w: string, t: TaskId, a: nat, w': string, t': TaskId, a': nat)
    requires w != w' && Key(w, t, a) == Key(w', t', a')
    ensures Overlap(w, w')
  {
    SplitAtLastColon(w + [COLON] + t, Decimal(a), w' + [COLON] + t', Decimal(a'));
    var s := w + [COLON] + t;
    assert s == w' + [COLON] + t';
    assert s[..|w|] == w && s[..|w'|] == w';
    if |w| < |w'| {
      assert s[..|w| + 1] == w + [COLON] && s[..|w'|][..|w| + 1] == s[..|w| + 1];
    } else if |w'| < |w| {
      assert s[..|w'| + 1] == w' + [COLON] && s[..|w|][..|w'| + 1] == s[..|w'| + 1];
    }
  }

  lemma OverlapSharesKey(w: string, w': string, a: nat) returns (t: TaskId, t': TaskId)
    requires w + [COLON] <= w'
    ensures Key(w, t, a) == Key(w', t', a)
  {
    t' := "";
    t := w'[|w| + 1..] + [COLON] + t';
    assert w' == w + [COLON] + w'[|w| + 1..];
  }

  ghost predicate ShareKey(w: string, w': string) {
    exists t, a, t', a' :: Key(w, t, a) == Key(w', t', a')
  }

  /** Two workflows can share a key exactly when one id continues the other after a colon. */
  lemma KeysSharedIffOverlap(w: string, w': string)
    requires w != w'
    ensures ShareKey(w, w') <==> Overlap(w, w')
  {
    if ShareKey(w, w') {
      var t, a, t', a' :| Key(w, t, a) == Key(w', t', a');
      SharedKeyOverlaps(w, t, a, w', t', a');
    }
    if w + [COLON] <= w' {
      var t, t' := OverlapSharesKey(w, w', 1);
    } else if w' + [COLON] <= w {
      var t, t' := OverlapSharesKey(w', w, 1);
      assert Key(w, t', 1) == Key(w', t, 1);
    }
  }

  /** So a key determines all three parts among workflows of which none continues another. */
  lemma KeyInjective(w: string, t: TaskId, a: nat, w': string, t': TaskId, a': nat)
    requires !Overlap(w, w') && Key(w, t, a) == Key(w', t', a')
    ensures w == w' && t == t' && a == a'
  {
    if w != w' {
      SharedKeyOverlaps(w, t, a, w', t', a');
    }
    KeyInjectiveInWorkflow(w, t, a, t', a');
  }
}
