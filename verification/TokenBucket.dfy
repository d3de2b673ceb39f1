// The token buckets behind both request limiters, and the cleaner that evicts idle ones.
//
// Credit is counted in nanoseconds: one token is worth `interval` nanoseconds of waiting, so
// a bucket that refills continuously needs integers only. Every operation is given the clock
// reading of the mutex-protected section it models.
module TokenBucket {

  datatype Config = Config(interval: nat, burst: nat) {
    function Cap(): nat {
      interval * burst
    }
  }

  datatype Bucket = Bucket(level: nat, last: nat)

  datatype Entry = Entry(bucket: Bucket, lastSeen: nat)

  type Table = map<string, Entry>

  // The credit of bucket b at time now: what was left plus the time gone by, capped.
  function Credit(cfg: Config, b: Bucket, now: nat): nat {
    var refilled := if now < b.last then b.level else b.level + (now - b.last);
    if refilled < cfg.Cap() then refilled else cfg.Cap()
  }

  // A refused request leaves the bucket as it was.
  function Allow(cfg: Config, b: Bucket, now: nat): (Bucket, bool) {
    var credit := Credit(cfg, b, now);
    if cfg.interval <= credit then (Bucket(credit - cfg.interval, now), true) else (b, false)
  }

  function EntryOf(cfg: Config, m: Table, key: string): Entry {
    if key in m then m[key] else Entry(Bucket(cfg.Cap(), 0), 0)
  }

  // Look the limiter up (creating a full one on first use), refresh lastSeen, ask for a token.
  function Take(cfg: Config, m: Table, key: string, now: nat): (Table, bool) {
    var (b, ok) := Allow(cfg, EntryOf(cfg, m, key).bucket, now);
    (m[key := Entry(b, now)], ok)
  }

  // What the cleaner leaves: entries not idle for longer than expiry.
  function Sweep(m: Table, now: nat, expiry: nat): Table {
    map k | k in m && now - m[k].lastSeen <= expiry :: m[k]
  }

  // The cleaner's loop over one table, deleting while it visits the keys in any order.
  method EvictIdle(m: Table, now: nat, expiry: nat) returns (r: Table)
    ensures r == Sweep(m, now, expiry)
  {
    r := m;
    var todo := m.Keys;
    while todo != {}
      invariant todo <= m.Keys
      invariant r == map k | k in m && (k in todo || now - m[k].lastSeen <= expiry) :: m[k]
    {
      var key :| key in todo;
      todo := todo - {key};
      if now - r[key].lastSeen > expiry {
        r := r - {key};
      }
    }
  }

  ghost function CreditOf(cfg: Config, m: Table, key: string, now: nat): nat {
    Credit(cfg, EntryOf(cfg, m, key).bucket, now)
  }

  ghost predicate Sane(m: Table, now: nat) {
    forall k | k in m :: m[k].bucket.last <= m[k].lastSeen <= now
  }

  // Two tables that no later request can tell apart.
  ghost predicate SameCredit(cfg: Config, m: Table, m': Table, now: nat) {
    forall k: string :: CreditOf(cfg, m, k, now) == CreditOf(cfg, m', k, now)
  }

  lemma SameCreditLater(cfg: Config, m: Table, m': Table, now: nat, later: nat)
    requires Sane(m, now) && Sane(m', now) && now <= later
    requires SameCredit(cfg, m, m', now)
    ensures Sane(m, later) && Sane(m', later) && SameCredit(cfg, m, m', later)
  {
    forall k: string ensures CreditOf(cfg, m, k, later) == CreditOf(cfg, m', k, later) {
      assert CreditOf(cfg, m, k, now) == CreditOf(cfg, m', k, now);
    }
  }

  lemma TakeSame(cfg: Config, m: Table, m': Table, key: string, now: nat)
    requires Sane(m, now) && Sane(m', now) && SameCredit(cfg, m, m', now)
    ensures Take(cfg, m, key, now).1 == Take(cfg, m', key, now).1
    ensures var t, t' := Take(cfg, m, key, now).0, Take(cfg, m', key, now).0;
            Sane(t, now) && Sane(t', now) && SameCredit(cfg, t, t', now)
  {
    assert CreditOf(cfg, m, key, now) == CreditOf(cfg, m', key, now);
    var t, t' := Take(cfg, m, key, now).0, Take(cfg, m', key, now).0;
    forall k: string ensures CreditOf(cfg, t, k, now) == CreditOf(cfg, t', k, now) {
      assert CreditOf(cfg, m, k, now) == CreditOf(cfg, m', k, now);
    }
  }

  // A request passes exactly if there is credit for it, which it then costs; to be refused costs
  // nothing, now or later, and nobody else's credit changes.
  lemma TakeCosts(cfg: Config, m: Table, key: string, now: nat, other: string, later: nat)
    requires Sane(m, now) && now <= later
    ensures var (after, ok) := Take(cfg, m, key, now);
            && (ok <==> cfg.interval <= CreditOf(cfg, m, key, now))
            && (ok ==> CreditOf(cfg, after, key, now) == CreditOf(cfg, m, key, now) - cfg.interval)
            && (!ok || other != key ==> CreditOf(cfg, after, other, later) == CreditOf(cfg, m, other, later))
  {
  }

  // An entry idle for more than expiry is full again, so evicting it changes no credit.
  lemma SweepSame(cfg: Config, m: Table, now: nat, expiry: nat)
    requires Sane(m, now) && cfg.Cap() <= expiry + 1
    ensures Sane(Sweep(m, now, expiry), now) && SameCredit(cfg, Sweep(m, now, expiry), m, now)
  {
    forall k: string ensures CreditOf(cfg, Sweep(m, now, expiry), k, now) == CreditOf(cfg, m, k, now) {
      if k in m && now - m[k].lastSeen > expiry {
        assert m[k].bucket.level + (now - m[k].bucket.last) >= cfg.Cap();
      }
    }
  }

  lemma SameCreditTrans(cfg: Config, a: Table, b: Table, c: Table, now: nat)
    requires SameCredit(cfg, a, b, now) && SameCredit(cfg, b, c, now)
    ensures SameCredit(cfg, a, c, now)
  {
    forall k: string ensures CreditOf(cfg, a, k, now) == CreditOf(cfg, c, k, now) {
      assert CreditOf(cfg, a, k, now) == CreditOf(cfg, b, k, now);
      assert CreditOf(cfg, b, k, now) == CreditOf(cfg, c, k, now);
    }
  }
}
