/**
 The per-user rate limiter (src/daily_agent/ratelimit.py). It forgets expired hits and idle keys; it is proved to answer
 exactly as a limiter that keeps every admission for ever. Clock readings never decrease from one check to the next.
 */
module RateLimiter {
  import opened Options
  import opened Sorting

  const IDLE_KEYS_BOUND := 10_000

  datatype Settings = Settings(limit: int, window: real) {
    predicate Valid() { limit >= 1 && window > 0.0 }
  }

  // ---------- The limiter that forgets nothing ----------

  /** Every admission ever made, in order, for each key. */
  type Book = map<string, seq<real>>

  function AdmissionsOf(book: Book, key: string): seq<real> {
    if key in book then book[key] else []
  }

  function Unexpired(g: Settings, times: seq<real>, now: real): seq<real> {
    Filter((t: real) => now - t < g.window, times)
  }

  function Ceil(x: real): int { -((-x).Floor) }

  /** Whole seconds until the oldest hit expires. */
  function Wait(g: Settings, oldest: real, now: real): int {
    var seconds := Ceil(g.window - (now - oldest));
    if seconds < 1 then 1 else seconds
  }

  function Decide(g: Settings, times: seq<real>, now: real): Option<int>
    requires g.Valid()
  {
    var recent := Unexpired(g, times, now);
    if |recent| >= g.limit then Some(Wait(g, recent[0], now)) else None
  }

  function Answer(g: Settings, book: Book, key: string, now: real): Option<int>
    requires g.Valid()
  {
    Decide(g, AdmissionsOf(book, key), now)
  }

  function Recorded(g: Settings, book: Book, key: string, now: real): Book
    requires g.Valid()
  {
    if Answer(g, book, key, now).None? then book[key := AdmissionsOf(book, key) + [now]] else book
  }

  // ---------- The limiter of the program ----------

  predicate Nondecreasing(times: seq<real>) {
    forall i, j :: 0 <= i < j < |times| ==> times[i] <= times[j]
  }

  /** `kept` is what is left of `times` after dropping admissions that have expired by `now`. */
  ghost predicate Remains(g: Settings, kept: seq<real>, times: seq<real>, now: real) {
    && |kept| <= |times| && kept == times[|times| - |kept|..]
    && forall i :: 0 <= i < |times| - |kept| ==> now - times[i] >= g.window
  }

  /** The hits kept for one key are right when only expired admissions are missing from them. */
  ghost predicate KeyIsRight(g: Settings, hits: Book, book: Book, now: real, key: string) {
    && Nondecreasing(AdmissionsOf(book, key))
    && (forall t :: t in AdmissionsOf(book, key) ==> t <= now)
    && Remains(g, AdmissionsOf(hits, key), AdmissionsOf(book, key), now)
  }

  class SlidingWindowLimiter {
    const settings: Settings
    var hits: Book
    ghost var book: Book
    ghost var last: real

    ghost predicate Valid()
      reads this
    {
      settings.Valid() && forall k :: KeyIsRight(settings, hits, book, last, k)
    }

    constructor (settings: Settings, now: real)
      requires settings.Valid()
      ensures Valid() && book == map[] && last == now && this.settings == settings
    {
      this.settings := settings;
      hits, book, last := map[], map[], now;
    }

    method Check(key: string, now: real) returns (wait: Option<int>)
      requires Valid() && last <= now
      modifies this
      ensures Valid() && last == now
      ensures wait == Answer(settings, old(book), key, now)
      ensures book == Recorded(settings, old(book), key, now)
    {
      PopExpired(key, now);
      if |hits[key]| >= settings.limit {
        var seconds := Ceil(settings.window - (now - hits[key][0]));
        return Some(if seconds < 1 then 1 else seconds);
      }
      Admit(key, now);
      if |hits| > IDLE_KEYS_BOUND {
        DropIdle(now);
      }
      return None;
    }

    /** Record an admission of a key whose expired hits are gone. */
    method Admit(key: string, now: real)
      requires Valid() && last == now && key in hits
      modifies this
      ensures Valid() && last == now
      ensures book == old(book)[key := AdmissionsOf(old(book), key) + [now]]
    {
      ghost var kept, before := hits, book;
      hits := hits[key := hits[key] + [now]];
      book := book[key := AdmissionsOf(book, key) + [now]];
      AdmissionKeepsKeys(settings, kept, before, key, now);
      assert forall k :: KeyIsRight(settings, hits, book, now, k) by {
        assert hits == kept[key := AdmissionsOf(kept, key) + [now]];
      }
    }

    /** The first loop: pop the expired hits of one key. */
    method PopExpired(key: string, now: real)
      requires Valid() && last <= now
      modifies this
      ensures Valid() && last == now && book == old(book)
      ensures key in hits && hits[key] == Unexpired(settings, AdmissionsOf(book, key), now)
    {
      if key !in hits {
        hits := hits[key := []];
      }
      last := now;
      forall k ensures KeyIsRight(settings, hits, book, last, k) {
        assert old(KeyIsRight(settings, hits, book, last, k));
      }
      while hits[key] != [] && now - hits[key][0] >= settings.window
        invariant Valid() && key in hits && book == old(book) && last == now
        decreases |hits[key]|
      {
        ghost var before := hits;
        assert KeyIsRight(settings, before, book, last, key);
        hits := hits[key := hits[key][1..]];
        PopKeepsKeys(settings, before, book, key, now);
      }
      assert KeyIsRight(settings, hits, book, last, key);
      KeptIsUnexpired(settings, hits[key], AdmissionsOf(book, key), now);
    }

    /** The second loop: forget every key whose hits have all expired. */
    method DropIdle(now: real)
      requires Valid() && last == now
      modifies this
      ensures Valid() && last == now && book == old(book)
      ensures forall k :: k in hits ==> hits[k] != [] && now - hits[k][|hits[k]| - 1] < settings.window
    {
      var idle := set k | k in hits && Idle(hits[k], now);
      while idle != {}
        invariant Valid() && last == now && book == old(book)
        invariant forall k :: k in hits ==> (k in idle <==> Idle(hits[k], now))
        decreases idle
      {
        var k :| k in idle;
        ghost var before := hits;
        hits := hits - {k};
        idle := idle - {k};
        forall j ensures KeyIsRight(settings, hits, book, last, j) {
          assert KeyIsRight(settings, before, book, last, j);
          if j == k && k in before {
            IdleMayGo(settings, before[k], AdmissionsOf(book, k), now);
          }
        }
      }
    }

    predicate Idle(times: seq<real>, now: real) {
      times == [] || now - times[|times| - 1] >= settings.window
    }
  }

  lemma PopKeepsKeys(g: Settings, hits: Book, book: Book, key: string, now: real)
    requires key in hits && hits[key] != [] && now - hits[key][0] >= g.window
    requires forall k :: KeyIsRight(g, hits, book, now, k)
    ensures var hits' := hits[key := hits[key][1..]]; forall k :: KeyIsRight(g, hits', book, now, k)
  {
    var hits' := hits[key := hits[key][1..]];
    forall k ensures KeyIsRight(g, hits', book, now, k) {
      assert KeyIsRight(g, hits, book, now, k);
    }
  }

  lemma AdmissionKeepsKey(g: Settings, kept: seq<real>, times: seq<real>, now: real)
    requires Nondecreasing(times) && (forall t :: t in times ==> t <= now) && Remains(g, kept, times, now)
    ensures Nondecreasing(times + [now]) && (forall t :: t in times + [now] ==> t <= now)
    ensures Remains(g, kept + [now], times + [now], now)
  {
    assert forall i :: 0 <= i < |times| ==> times[i] in times;
    assert kept + [now] == (times + [now])[|times| - |kept|..];
  }

  lemma AdmissionKeepsKeys(g: Settings, hits: Book, book: Book, key: string, now: real)
    requires forall k :: KeyIsRight(g, hits, book, now, k)
    ensures var hits', book' := hits[key := AdmissionsOf(hits, key) + [now]], book[key := AdmissionsOf(book, key) + [now]];
            forall k :: KeyIsRight(g, hits', book', now, k)
  {
    assert KeyIsRight(g, hits, book, now, key);
    AdmissionKeepsKey(g, AdmissionsOf(hits, key), AdmissionsOf(book, key), now);
    var hits', book' := hits[key := AdmissionsOf(hits, key) + [now]], book[key := AdmissionsOf(book, key) + [now]];
    forall k ensures KeyIsRight(g, hits', book', now, k) {
      assert KeyIsRight(g, hits, book, now, k);
    }
  }

  lemma IdleMayGo(g: Settings, kept: seq<real>, times: seq<real>, now: real)
    requires Nondecreasing(times) && Remains(g, kept, times, now)
    requires kept == [] || now - kept[|kept| - 1] >= g.window
    ensures Remains(g, [], times, now)
  {
    forall i | 0 <= i < |times| ensures now - times[i] >= g.window {
      if i >= |times| - |kept| {
        assert i == |times| - 1 || times[i] <= times[|times| - 1];
        assert kept[|kept| - 1] == times[|times| - 1];
      }
    }
  }

  /** After the expired head is popped, what is left is exactly the unexpired admissions. */
  lemma {:induction false} KeptIsUnexpired(g: Settings, kept: seq<real>, times: seq<real>, now: real)
    requires Remains(g, kept, times, now) && Nondecreasing(times)
    requires kept == [] || now - kept[0] < g.window
    ensures kept == Unexpired(g, times, now)
  {
    if times != [] {
      if |kept| < |times| {
        KeptIsUnexpired(g, kept, times[1..], now);
      } else if |kept| > 0 {
        KeptIsUnexpired(g, kept[1..], times[1..], now);
      }
    }
  }

  // ---------- Whole runs ----------

  datatype Hit = Hit(key: string, at: real)

  /** Every admission after a sequence of checks. */
  function BookAfter(g: Settings, checks: seq<Hit>): Book
    requires g.Valid()
  {
    if checks == [] then map[]
    else
      var last := checks[|checks| - 1];
      Recorded(g, BookAfter(g, checks[..|checks| - 1]), last.key, last.at)
  }

  predicate InOrder(checks: seq<Hit>) {
    forall i, j :: 0 <= i < j < |checks| ==> checks[i].at <= checks[j].at
  }

  function AdmittedAt(g: Settings, checks: seq<Hit>, key: string): seq<real>
    requires g.Valid()
  {
    AdmissionsOf(BookAfter(g, checks), key)
  }

  /** Any limit + 1 consecutive admissions span at least a window. */
  ghost predicate Spaced(g: Settings, times: seq<real>)
    requires g.Valid()
  {
    forall i, j :: 0 <= i && j == i + g.limit && j < |times| ==> times[j] - times[i] >= g.window
  }

  /** On ordered times, fewer than n are unexpired exactly when the n-th from the end has expired. */
  lemma {:induction false} UnexpiredCount(g: Settings, times: seq<real>, now: real, n: int)
    requires n >= 1 && Nondecreasing(times)
    ensures |Unexpired(g, times, now)| < n <==> |times| < n || now - times[|times| - n] >= g.window
    ensures Unexpired(g, times, now) == times[|times| - |Unexpired(g, times, now)|..]
  {
    if times != [] && now - times[0] < g.window {
      AllUnexpired(g, times, now, times[0]);
    } else if times != [] {
      UnexpiredCount(g, times[1..], now, n);
      assert Unexpired(g, times, now) == Unexpired(g, times[1..], now);
    }
  }

  lemma {:induction false} AllUnexpired(g: Settings, times: seq<real>, now: real, first: real)
    requires now - first < g.window && forall i :: 0 <= i < |times| ==> first <= times[i]
    ensures Unexpired(g, times, now) == times
  {
    if times != [] {
      AllUnexpired(g, times[1..], now, first);
    }
  }

  lemma SpacedAppend(g: Settings, times: seq<real>, now: real)
    requires g.Valid() && Nondecreasing(times) && Spaced(g, times)
    requires forall t :: t in times ==> t <= now
    requires |Unexpired(g, times, now)| < g.limit
    ensures Nondecreasing(times + [now]) && Spaced(g, times + [now])
  {
    UnexpiredCount(g, times, now, g.limit);
    var longer := times + [now];
    forall i, j | 0 <= i && j == i + g.limit && j < |longer| ensures longer[j] - longer[i] >= g.window {
      if j < |times| {
        assert times[j] - times[i] >= g.window;
      }
    }
    forall i, j | 0 <= i < j < |longer| ensures longer[i] <= longer[j] {
      assert times[i] in times;
    }
  }

  lemma RecordedFor(g: Settings, book: Book, key: string, now: real, k: string)
    requires g.Valid()
    ensures AdmissionsOf(Recorded(g, book, key, now), k)
         == if k == key && |Unexpired(g, AdmissionsOf(book, key), now)| < g.limit
            then AdmissionsOf(book, key) + [now] else AdmissionsOf(book, k)
  {
  }

  lemma {:induction false} AdmissionsAreSpaced(g: Settings, checks: seq<Hit>, key: string)
    requires g.Valid() && InOrder(checks)
    ensures Nondecreasing(AdmittedAt(g, checks, key)) && Spaced(g, AdmittedAt(g, checks, key))
    ensures checks != [] ==> forall t :: t in AdmittedAt(g, checks, key) ==> t <= checks[|checks| - 1].at
  {
    if checks != [] {
      var before, last := checks[..|checks| - 1], checks[|checks| - 1];
      AdmissionsAreSpaced(g, before, key);
      var times := AdmittedAt(g, before, key);
      assert forall t :: t in times ==> t <= last.at by {
        assert before != [] ==> before[|before| - 1].at <= last.at;
        assert before == [] ==> times == [];
      }
      RecordedFor(g, BookAfter(g, before), last.key, last.at, key);
      if last.key == key && |Unexpired(g, times, last.at)| < g.limit {
        SpacedAppend(g, times, last.at);
      }
    }
  }

  /** No key is admitted more than `limit` times in any interval as long as the window. */
  lemma AtMostLimitPerWindow(g: Settings, checks: seq<Hit>, key: string, from: real)
    requires g.Valid() && InOrder(checks)
    ensures |Filter((t: real) => from <= t < from + g.window, AdmittedAt(g, checks, key))| <= g.limit
  {
    AdmissionsAreSpaced(g, checks, key);
    CountWithin(g, AdmittedAt(g, checks, key), from);
  }

  lemma {:induction false} CountWithin(g: Settings, times: seq<real>, from: real)
    requires g.Valid() && Nondecreasing(times) && Spaced(g, times)
    ensures |Filter((t: real) => from <= t < from + g.window, times)| <= g.limit
  {
    var within := (t: real) => from <= t < from + g.window;
    if times != [] {
      var rest := times[1..];
      assert Spaced(g, rest) by {
        forall i, j | 0 <= i && j == i + g.limit && j < |rest| ensures rest[j] - rest[i] >= g.window {
          assert times[j + 1] - times[i + 1] >= g.window;
        }
      }
      CountWithin(g, rest, from);
      if from <= times[0] && |times| > g.limit {
        CountBelow(times, within, g.limit, from + g.window);
      }
    }
  }

  lemma {:induction false} CountBelow(times: seq<real>, within: real -> bool, n: nat, bound: real)
    requires n < |times| && bound <= times[n] && Nondecreasing(times)
    requires forall t :: within(t) ==> t < bound
    ensures |Filter(within, times)| <= n
  {
    if n == 0 {
      forall i | 0 <= i < |times| ensures !within(times[i]) { assert times[0] <= times[i]; }
      FilterNone(within, times);
    } else {
      CountBelow(times[1..], within, n - 1, bound);
    }
  }

  // ---------- What a refusal means ----------

  lemma CeilBounds(x: real)
    ensures x <= Ceil(x) as real < x + 1.0
  {
  }

  lemma WaitIsLeast(g: Settings, oldest: real, now: real)
    requires now - oldest < g.window
    ensures var wait := Wait(g, oldest, now);
            wait >= 1 && now + wait as real >= oldest + g.window
            && (wait > 1 ==> now + (wait - 1) as real < oldest + g.window)
  {
    CeilBounds(g.window - (now - oldest));
  }

  lemma RefusalOnTimes(g: Settings, times: seq<real>, now: real, later: real)
    requires g.Valid() && Nondecreasing(times) && Spaced(g, times) && now <= later
    requires forall t :: t in times ==> t <= now
    requires Decide(g, times, now).Some?
    ensures |times| >= g.limit
    ensures var oldest := times[|times| - g.limit];
            && var wait := Decide(g, times, now).value;
            && (Decide(g, times, later).None? <==> later >= oldest + g.window)
            && now + wait as real >= oldest + g.window && wait >= 1
            && (wait > 1 ==> now + (wait - 1) as real < oldest + g.window)
  {
    UnexpiredCount(g, times, now, g.limit);
    UnexpiredCount(g, times, now, g.limit + 1);
    UnexpiredCount(g, times, later, g.limit);
    assert |times| > 0 ==> times[|times| - 1] in times;
    WaitIsLeast(g, times[|times| - g.limit], now);
  }

  /**
   After a refusal, as long as no further check admits the key: every check before the oldest unexpired hit expires is
   refused, every later one is admitted, the seconds returned are enough, and one second fewer would not do unless it is
   the minimum of one second.
   */
  lemma RefusalIsExact(g: Settings, checks: seq<Hit>, key: string, now: real, more: seq<Hit>, later: real)
    requires g.Valid() && InOrder(checks) && now <= later
    requires checks != [] ==> checks[|checks| - 1].at <= now
    requires AdmittedAt(g, checks + more, key) == AdmittedAt(g, checks, key)
    requires Decide(g, AdmittedAt(g, checks, key), now).Some?
    ensures var times, wait := AdmittedAt(g, checks, key), Decide(g, AdmittedAt(g, checks, key), now).value;
            && |times| >= g.limit
            && var oldest := times[|times| - g.limit];
            && (Decide(g, AdmittedAt(g, checks + more, key), later).None? <==> later >= oldest + g.window)
            && now + wait as real >= oldest + g.window && wait >= 1
            && (wait > 1 ==> now + (wait - 1) as real < oldest + g.window)
  {
    AdmissionsAreSpaced(g, checks, key);
    var times := AdmittedAt(g, checks, key);
    assert checks == [] ==> times == [];
    RefusalOnTimes(g, times, now, later);
  }

  /** Waiting the seconds returned is enough. */
  lemma WaitingSucceeds(g: Settings, checks: seq<Hit>, key: string, now: real, more: seq<Hit>, later: real)
    requires g.Valid() && InOrder(checks)
    requires checks != [] ==> checks[|checks| - 1].at <= now
    requires AdmittedAt(g, checks + more, key) == AdmittedAt(g, checks, key)
    requires Decide(g, AdmittedAt(g, checks, key), now).Some?
    requires later >= now + Decide(g, AdmittedAt(g, checks, key), now).value as real
    ensures Decide(g, AdmittedAt(g, checks + more, key), later).None?
  {
    assert Decide(g, AdmittedAt(g, checks, key), now).value >= 1;
    RefusalIsExact(g, checks, key, now, more, later);
  }
}
