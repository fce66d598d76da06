/** Token-bucket admission, one bucket per endpoint, over real-valued time. */
module Ratelimit {
  import opened Bytes
  import opened Outcomes
  import opened Request

  datatype Config = Config(rate: real, burst: int, exemptCancellation: bool)

  datatype Bucket = Bucket(tokens: real, last: real)

  function RMin(a: real, b: real): real {
    if a <= b then a else b
  }

  function RMax(a: real, b: real): real {
    if a <= b then b else a
  }

  function Capacity(cfg: Config): real {
    cfg.burst as real
  }

  /** What the elapsed time adds. */
  function Refill(cfg: Config, elapsed: real): real {
    elapsed * cfg.rate
  }

  /** One attempt: refill for the time since the last one, cap, then take a token
      if there is a whole one. The clock is read once more to create a bucket. */
  function Attempt(cfg: Config, cur: Option<Bucket>, created: real, now: real): (Bucket, bool) {
    var b := if cur.Some? then cur.value else Bucket(Capacity(cfg), created);
    var level := RMin(b.tokens + Refill(cfg, now - b.last), Capacity(cfg));
    if level < 1.0 then (Bucket(level, now), false) else (Bucket(level - 1.0, now), true)
  }

  type Buckets = map<Word16, Bucket>

  function BucketOf(buckets: Buckets, addr: Word16): Option<Bucket> {
    if addr in buckets then Some(buckets[addr]) else None
  }

  class Controller {
    const cfg: Config
    var buckets: Buckets

    constructor (cfg: Config)
      ensures this.cfg == cfg && buckets == map[]
    {
      this.cfg := cfg;
      buckets := map[];
    }

    method Take(addr: Word16, created: real, now: real) returns (ok: bool)
      modifies this`buckets
      ensures var a := Attempt(cfg, BucketOf(old(buckets), addr), created, now);
              buckets == old(buckets)[addr := a.0] && ok == a.1
    {
      hide Refill;
      if addr !in buckets {
        buckets := buckets[addr := Bucket(Capacity(cfg), created)];
      }
      var b := buckets[addr];
      var elapsed := now - b.last;
      var tokens := b.tokens + Refill(cfg, elapsed);
      if tokens > Capacity(cfg) {
        tokens := Capacity(cfg);
      }
      if tokens < 1.0 {
        buckets := buckets[addr := Bucket(tokens, now)];
        assert buckets == old(buckets)[addr := Bucket(tokens, now)];
        return false;
      }
      buckets := buckets[addr := Bucket(tokens - 1.0, now)];
      assert buckets == old(buckets)[addr := Bucket(tokens - 1.0, now)];
      return true;
    }

    /** Cancellations bypass the bucket where the configuration exempts them. */
    method Admit(addr: Word16, a: Action, created: real, now: real) returns (ok: bool)
      modifies this`buckets
      ensures cfg.exemptCancellation && (a.CancelAll? || a.CancelTransaction? || a.CancelSequencer?) ==>
                ok && buckets == old(buckets)
      ensures !cfg.exemptCancellation || !(a.CancelAll? || a.CancelTransaction? || a.CancelSequencer?) ==>
                var t := Attempt(cfg, BucketOf(old(buckets), addr), created, now);
                ok == t.1 && buckets == old(buckets)[addr := t.0]
      ensures var r := Req(addr, Exempt(cfg, a), created, now);
              buckets == Step(cfg, old(buckets), r) && ok == Admits(cfg, old(buckets), r)
    {
      if cfg.exemptCancellation && IsCancellation(a) {
        return true;
      }
      ok := Take(addr, created, now);
    }
  }

  lemma RefillIs(cfg: Config, elapsed: real, gained: real)
    requires gained == elapsed * cfg.rate
    ensures Refill(cfg, elapsed) == gained
  {
  }

  /** One attempt on a bucket, in plain arithmetic: rate times elapsed is gained,
      the burst caps it, and a whole token is taken if there is one. */
  lemma AttemptSpelled(cfg: Config, tokens: real, last: real, created: real, now: real, gained: real)
    requires gained == (now - last) * cfg.rate
    ensures var level := if tokens + gained > cfg.burst as real then cfg.burst as real else tokens + gained;
            var ok := level >= 1.0;
            Attempt(cfg, Some(Bucket(tokens, last)), created, now) ==
            (Bucket(if ok then level - 1.0 else level, now), ok)
  {
    hide Refill;
    RefillIs(cfg, now - last, gained);
  }

  lemma FirstIsFull(cfg: Config, created: real, now: real)
    ensures Attempt(cfg, None, created, now) == Attempt(cfg, Some(Bucket(cfg.burst as real, created)), created, now)
  {
    hide Refill;
  }

  // ------------------------------------------------------------------- runs

  predicate Exempt(cfg: Config, a: Action) {
    cfg.exemptCancellation && IsCancellation(a)
  }

  /** A request for an endpoint, and the two clock readings it may cause. */
  datatype Req = Req(addr: Word16, exempt: bool, created: real, now: real)

  function Step(cfg: Config, buckets: Buckets, r: Req): Buckets {
    if r.exempt then buckets else buckets[r.addr := Attempt(cfg, BucketOf(buckets, r.addr), r.created, r.now).0]
  }

  predicate Admits(cfg: Config, buckets: Buckets, r: Req) {
    r.exempt || Attempt(cfg, BucketOf(buckets, r.addr), r.created, r.now).1
  }

  function Run(cfg: Config, rs: seq<Req>): Buckets {
    if rs == [] then map[] else Step(cfg, Run(cfg, rs[..|rs| - 1]), rs[|rs| - 1])
  }

  /** A clock that never goes back. */
  predicate Timed(rs: seq<Req>) {
    && (forall i :: 0 <= i < |rs| ==> rs[i].created <= rs[i].now)
    && (forall i, j :: 0 <= i < j < |rs| ==> rs[i].now <= rs[j].created)
  }

  predicate Counts(r: Req, addr: Word16) {
    !r.exempt && r.addr == addr
  }

  function RequestsTo(rs: seq<Req>, addr: Word16): seq<Req> {
    if rs == [] then []
    else RequestsTo(rs[..|rs| - 1], addr) + if Counts(rs[|rs| - 1], addr) then [rs[|rs| - 1]] else []
  }

  /** An endpoint's bucket, and so every decision about its requests, depends on
      its own requests alone. */
  lemma {:induction false} OtherEndpointsDoNotMatter(cfg: Config, rs: seq<Req>, addr: Word16)
    ensures BucketOf(Run(cfg, rs), addr) == BucketOf(Run(cfg, RequestsTo(rs, addr)), addr)
  {
    hide Attempt;
    if rs != [] {
      var r, rest := rs[|rs| - 1], RequestsTo(rs[..|rs| - 1], addr);
      OtherEndpointsDoNotMatter(cfg, rs[..|rs| - 1], addr);
      if Counts(r, addr) {
        assert (rest + [r])[..|rest|] == rest;
      } else {
        assert rest + [] == rest;
      }
    }
  }

  // ----------------------------------------------------------------- bounds

  lemma RefillSign(cfg: Config, d: real)
    requires d >= 0.0 && cfg.rate >= 0.0
    ensures Refill(cfg, d) >= 0.0
  {
  }

  lemma RefillBound(cfg: Config, d: real)
    requires d >= 0.0
    ensures Refill(cfg, d) <= PositiveRate(cfg) * d && PositiveRate(cfg) * d >= 0.0
  {
    if cfg.rate >= 0.0 {
      assert PositiveRate(cfg) * d == d * cfg.rate;
    } else {
      assert d * cfg.rate <= 0.0;
    }
  }

  /** With a sensible configuration the level stays between empty and full. */
  lemma {:induction false} LevelStaysInRange(cfg: Config, rs: seq<Req>, addr: Word16)
    requires cfg.rate >= 0.0 && cfg.burst >= 0 && Timed(rs) && addr in Run(cfg, rs)
    ensures 0.0 <= Run(cfg, rs)[addr].tokens <= Capacity(cfg)
    ensures rs != [] && Run(cfg, rs)[addr].last <= rs[|rs| - 1].now
  {
    hide Refill;
    var n := |rs| - 1;
    var r := rs[n];
    var before := Run(cfg, rs[..n]);
    if addr in before {
      LevelStaysInRange(cfg, rs[..n], addr);
    }
    if Counts(r, addr) {
      var last := if addr in before then before[addr].last else r.created;
      assert last <= r.now by {
        if addr in before {
          assert rs[..n][n - 1] == rs[n - 1] && rs[n - 1].now <= r.created;
        }
      }
      RefillSign(cfg, r.now - last);
    } else if n > 0 {
      assert rs[n - 1].now <= r.created <= r.now;
    }
  }

  /** Admitted, non-exempt requests for `addr` among rs[i..j]. */
  function Admitted(cfg: Config, rs: seq<Req>, addr: Word16, i: nat, j: nat): nat
    requires i <= j <= |rs|
    decreases j - i
  {
    if i == j then 0
    else
      Admitted(cfg, rs, addr, i, j - 1)
        + if Counts(rs[j - 1], addr) && Admits(cfg, Run(cfg, rs[..j - 1]), rs[j - 1]) then 1 else 0
  }

  predicate Touched(rs: seq<Req>, addr: Word16, i: nat, j: nat)
    requires i <= j <= |rs|
  {
    exists k :: i <= k < j && Counts(rs[k], addr)
  }

  function PositiveRate(cfg: Config): real {
    RMax(cfg.rate, 0.0)
  }

  /** What may have been admitted since time `start`. */
  function Allowance(cfg: Config, start: real, now: real): real {
    RMax(Capacity(cfg), 0.0) + PositiveRate(cfg) * (now - start)
  }

  lemma AllowanceGrows(cfg: Config, start: real, t: real, now: real)
    requires t <= now
    ensures Allowance(cfg, start, now) == Allowance(cfg, start, t) + PositiveRate(cfg) * (now - t)
    ensures Allowance(cfg, start, now) >= Allowance(cfg, start, t)
  {
    var r := PositiveRate(cfg);
    assert r * (now - start) == r * (t - start) + r * (now - t);
    assert r * (now - t) >= 0.0;
  }

  /** One attempt spends at most what the bucket held and what time brought. */
  lemma AttemptIsPaidFor(cfg: Config, cur: Option<Bucket>, created: real, now: real)
    requires (if cur.Some? then cur.value.last else created) <= now
    ensures var (b, ok) := Attempt(cfg, cur, created, now);
            && b.last == now
            && (if ok then 1.0 else 0.0) + RMax(b.tokens, 0.0) <= RMax(Capacity(cfg), 0.0)
            && (cur.Some? ==> (if ok then 1.0 else 0.0) + RMax(b.tokens, 0.0)
                              <= RMax(cur.value.tokens, 0.0) + PositiveRate(cfg) * (now - cur.value.last))
  {
    hide Refill;
    if cur.Some? {
      RefillBound(cfg, now - cur.value.last);
      hide PositiveRate;
    }
  }

  /** Admissions since `start`, plus what is left in the bucket, do not exceed
      the allowance. */
  predicate Within(cfg: Config, start: real, count: nat, b: Bucket) {
    count as real + RMax(b.tokens, 0.0) <= Allowance(cfg, start, b.last)
  }

  function One(ok: bool): nat {
    if ok then 1 else 0
  }

  lemma FirstAttempt(cfg: Config, cur: Option<Bucket>, created: real, now: real, start: real)
    requires (if cur.Some? then cur.value.last else created) <= now && start <= now
    ensures var (b, ok) := Attempt(cfg, cur, created, now); Within(cfg, start, One(ok), b)
  {
    hide Attempt;
    AttemptIsPaidFor(cfg, cur, created, now);
    AllowanceGrows(cfg, start, start, now);
    assert PositiveRate(cfg) * (start - start) == 0.0;
  }

  lemma NextAttempt(cfg: Config, b0: Bucket, created: real, now: real, start: real, count: nat)
    requires Within(cfg, start, count, b0) && b0.last <= now
    ensures var (b, ok) := Attempt(cfg, Some(b0), created, now); Within(cfg, start, count + One(ok), b)
  {
    hide Attempt;
    hide Allowance;
    hide RMax;
    AttemptIsPaidFor(cfg, Some(b0), created, now);
    AllowanceGrows(cfg, start, b0.last, now);
  }

  lemma {:induction false} SpentWithinAllowance(cfg: Config, rs: seq<Req>, addr: Word16, i: nat, j: nat)
    requires i < j <= |rs| && Timed(rs)
    ensures !Touched(rs, addr, i, j) ==> Admitted(cfg, rs, addr, i, j) == 0
    ensures Touched(rs, addr, i, j) ==>
            addr in Run(cfg, rs[..j]) && Within(cfg, rs[i].now, Admitted(cfg, rs, addr, i, j), Run(cfg, rs[..j])[addr])
    decreases j
  {
    hide Within;
    hide Attempt;
    hide Timed;
    var r := rs[j - 1];
    var before := Run(cfg, rs[..j - 1]);
    assert rs[..j][..j - 1] == rs[..j - 1];
    assert Touched(rs, addr, i, j) <==> Touched(rs, addr, i, j - 1) || Counts(r, addr) by {
      assert Counts(r, addr) ==> Touched(rs, addr, i, j);
    }
    if j - 1 > i {
      SpentWithinAllowance(cfg, rs, addr, i, j - 1);
    }
    if Counts(r, addr) {
      TimesOrdered(rs, j - 1);
      InOrder(rs, i, j - 1);
      var cur := BucketOf(before, addr);
      if addr in before {
        LastIsPast(cfg, rs, addr, j - 1);
      }
      if Touched(rs, addr, i, j - 1) {
        NextAttempt(cfg, before[addr], r.created, r.now, rs[i].now, Admitted(cfg, rs, addr, i, j - 1));
      } else {
        FirstAttempt(cfg, cur, r.created, r.now, rs[i].now);
      }
    }
  }

  lemma InOrder(rs: seq<Req>, i: nat, k: nat)
    requires Timed(rs) && i <= k < |rs|
    ensures rs[i].now <= rs[k].now
  {
    if i < k {
      assert rs[i].now <= rs[k].created;
    }
  }

  lemma TimesOrdered(rs: seq<Req>, k: nat)
    requires Timed(rs) && k < |rs|
    ensures rs[k].created <= rs[k].now && (k > 0 ==> rs[k - 1].now <= rs[k].created)
  {
  }

  lemma {:induction false} LastIsPast(cfg: Config, rs: seq<Req>, addr: Word16, j: nat)
    requires j <= |rs| && Timed(rs) && addr in Run(cfg, rs[..j])
    ensures j > 0 && Run(cfg, rs[..j])[addr].last <= rs[j - 1].now
  {
    if j > 0 {
      assert rs[..j][..j - 1] == rs[..j - 1];
      if !Counts(rs[j - 1], addr) {
        LastIsPast(cfg, rs, addr, j - 1);
        TimesOrdered(rs, j - 1);
      }
    }
  }

  /** However the requests are spread, an endpoint admits at most a burst plus the
      sustained rate times the length of any window, whatever the sign of the
      configured values. */
  lemma WindowBound(cfg: Config, rs: seq<Req>, addr: Word16, i: nat, j: nat)
    requires i < j <= |rs| && Timed(rs)
    ensures Admitted(cfg, rs, addr, i, j) as real <=
            RMax(Capacity(cfg), 0.0) + PositiveRate(cfg) * (rs[j - 1].now - rs[i].now)
  {
    hide Run;
    hide Admitted;
    hide PositiveRate;
    SpentWithinAllowance(cfg, rs, addr, i, j);
    InOrder(rs, i, j - 1);
    AllowanceGrows(cfg, rs[i].now, rs[i].now, rs[j - 1].now);
    assert PositiveRate(cfg) * (rs[i].now - rs[i].now) == 0.0;
    if Touched(rs, addr, i, j) {
      LastIsPast(cfg, rs, addr, j);
      AllowanceGrows(cfg, rs[i].now, Run(cfg, rs[..j])[addr].last, rs[j - 1].now);
    }
  }

  // -------------------------------------------------------- the exact decision

  /** What a burst and the rate allow between two moments. */
  function Allowed(cfg: Config, start: real, now: real): real {
    cfg.burst as real + cfg.rate * (now - start)
  }

  lemma AllowedLater(cfg: Config, start: real, t: real, now: real)
    ensures Allowed(cfg, start, now) == Allowed(cfg, start, t) + Refill(cfg, now - t)
    ensures Allowed(cfg, now, now) == cfg.burst as real
  {
    assert cfg.rate * (now - start) == cfg.rate * (t - start) + (now - t) * cfg.rate;
  }

  /** The level an attempt finds is what has been allowed, less what has been
      admitted, since some request that found the bucket full. */
  lemma LevelSince(cfg: Config, rs: seq<Req>, addr: Word16, j: nat) returns (c: nat, level: real)
    requires cfg.rate >= 0.0 && Timed(rs) && j < |rs| && Counts(rs[j], addr)
    ensures c <= j && Counts(rs[c], addr)
    ensures level == Allowed(cfg, rs[c].now, rs[j].now) - Admitted(cfg, rs, addr, c, j) as real
    ensures var a := Attempt(cfg, BucketOf(Run(cfg, rs[..j]), addr), rs[j].created, rs[j].now);
            a.1 == (level >= 1.0) && a.0 == Bucket(level - One(a.1) as real, rs[j].now)
    decreases j, 1
  {
    hide Refill;
    hide Allowed;
    hide Timed;
    hide Run;
    var r, before := rs[j], Run(cfg, rs[..j]);
    TimesOrdered(rs, j);
    AllowedLater(cfg, r.now, r.now, r.now);
    var b := if addr in before then before[addr] else Bucket(Capacity(cfg), r.created);
    c, level := j, Capacity(cfg);
    if addr in before {
      if b.tokens + Refill(cfg, r.now - b.last) < Capacity(cfg) {
        c := TokensSince(cfg, rs, addr, j);
        AllowedLater(cfg, rs[c].now, b.last, r.now);
        level := b.tokens + Refill(cfg, r.now - b.last);
      }
    } else {
      RefillSign(cfg, r.now - r.created);
    }
  }

  lemma {:induction false} TokensSince(cfg: Config, rs: seq<Req>, addr: Word16, j: nat) returns (c: nat)
    requires cfg.rate >= 0.0 && Timed(rs) && j <= |rs| && addr in Run(cfg, rs[..j])
    ensures c < j && Counts(rs[c], addr)
    ensures var b := Run(cfg, rs[..j])[addr];
            b.tokens == Allowed(cfg, rs[c].now, b.last) - Admitted(cfg, rs, addr, c, j) as real
    decreases j, 0
  {
    hide Allowed;
    hide Attempt;
    hide Timed;
    assert j > 0 by { LastIsPast(cfg, rs, addr, j); }
    var r, before := rs[j - 1], Run(cfg, rs[..j - 1]);
    assert rs[..j][..j - 1] == rs[..j - 1];
    if Counts(r, addr) {
      var level;
      c, level := LevelSince(cfg, rs, addr, j - 1);
    } else {
      c := TokensSince(cfg, rs, addr, j - 1);
    }
  }

  /** A request is admitted if and only if, in every window that starts with an
      earlier request for its endpoint or with itself, the admissions with it
      stay within a burst plus the rate times the length of the window. Nothing
      else is ever refused, and nothing more is ever admitted. */
  lemma AdmittedExactlyWhen(cfg: Config, rs: seq<Req>, addr: Word16, j: nat)
    requires cfg.rate >= 0.0 && Timed(rs) && j < |rs| && Counts(rs[j], addr)
    ensures Admits(cfg, Run(cfg, rs[..j]), rs[j]) <==>
            forall i :: 0 <= i <= j && Counts(rs[i], addr) ==> FitsWindow(cfg, rs, addr, i, j)
  {
    hide Attempt;
    hide Run;
    hide Timed;
    hide Admitted;
    hide FitsWindow;
    var c, level := LevelSince(cfg, rs, addr, j);
    FitsWindowMeans(cfg, rs, addr, c, j);
    hide Allowed;
    if Admits(cfg, Run(cfg, rs[..j]), rs[j]) {
      forall i | 0 <= i <= j && Counts(rs[i], addr) ensures FitsWindow(cfg, rs, addr, i, j) {
        AdmissionFits(cfg, rs, addr, i, j);
      }
    }
  }

  /** One more admission at request `j` keeps the window from request `i` within
      a burst plus the rate times its length. */
  predicate FitsWindow(cfg: Config, rs: seq<Req>, addr: Word16, i: nat, j: nat)
    requires i <= j < |rs|
  {
    Admitted(cfg, rs, addr, i, j) as real + 1.0 <= cfg.burst as real + cfg.rate * (rs[j].now - rs[i].now)
  }

  lemma FitsWindowMeans(cfg: Config, rs: seq<Req>, addr: Word16, i: nat, j: nat)
    requires i <= j < |rs|
    ensures FitsWindow(cfg, rs, addr, i, j) <==>
            Allowed(cfg, rs[i].now, rs[j].now) - Admitted(cfg, rs, addr, i, j) as real >= 1.0
  {
    hide Admitted;
  }

  lemma AdmissionFits(cfg: Config, rs: seq<Req>, addr: Word16, i: nat, j: nat)
    requires cfg.rate >= 0.0 && Timed(rs) && i <= j < |rs| && Counts(rs[j], addr)
    requires Admits(cfg, Run(cfg, rs[..j]), rs[j])
    ensures FitsWindow(cfg, rs, addr, i, j)
  {
    hide Attempt;
    hide Run;
    hide Timed;
    WindowBound(cfg, rs, addr, i, j + 1);
    LevelIsCapped(cfg, BucketOf(Run(cfg, rs[..j]), addr), rs[j].created, rs[j].now);
    assert Admitted(cfg, rs, addr, i, j + 1) == Admitted(cfg, rs, addr, i, j) + 1;
    hide Admitted;
  }

  lemma LevelIsCapped(cfg: Config, cur: Option<Bucket>, created: real, now: real)
    ensures Attempt(cfg, cur, created, now).1 ==> cfg.burst >= 1
  {
    hide Refill;
  }

  /** In particular a pause long enough for one token always suffices. */
  lemma PauseSuffices(cfg: Config, rs: seq<Req>, addr: Word16, k: nat, j: nat)
    requires cfg.rate >= 0.0 && cfg.burst >= 1 && Timed(rs) && k < j < |rs|
    requires Counts(rs[k], addr) && Counts(rs[j], addr) && forall i :: k < i < j ==> !Counts(rs[i], addr)
    requires cfg.rate * (rs[j].now - rs[k].now) >= 1.0
    ensures Admits(cfg, Run(cfg, rs[..j]), rs[j])
  {
    hide Attempt;
    hide Run;
    hide Timed;
    LastOfRun(cfg, rs, addr, k, j);
    LevelStaysInRange(cfg, rs[..j], addr) by { TimedPrefix(rs, j); }
    var before := Run(cfg, rs[..j]);
    AttemptAfterPause(cfg, before[addr], rs[j].created, rs[j].now);
  }

  lemma AttemptAfterPause(cfg: Config, b: Bucket, created: real, now: real)
    requires cfg.burst >= 1 && b.tokens >= 0.0 && cfg.rate * (now - b.last) >= 1.0
    ensures Attempt(cfg, Some(b), created, now).1
  {
    hide Refill;
    RefillIs(cfg, now - b.last, cfg.rate * (now - b.last));
  }

  lemma TimedPrefix(rs: seq<Req>, j: nat)
    requires Timed(rs) && j <= |rs|
    ensures Timed(rs[..j])
  {
  }

  lemma {:induction false} LastOfRun(cfg: Config, rs: seq<Req>, addr: Word16, k: nat, j: nat)
    requires k < j <= |rs| && Counts(rs[k], addr) && forall i :: k < i < j ==> !Counts(rs[i], addr)
    ensures addr in Run(cfg, rs[..j]) && Run(cfg, rs[..j])[addr].last == rs[k].now
    decreases j
  {
    assert rs[..j][..j - 1] == rs[..j - 1];
    if j - 1 > k {
      LastOfRun(cfg, rs, addr, k, j - 1);
    }
  }
}
