/**
 The challenge-issuance limiter seen from outside: which of the clock readings that reach its block are
 granted. A call reads its clock before it takes the limiter's lock, so readings may arrive out of order.
 */
module IssuanceRate {

  /** The place, from 1, of reading `i` in its uninterrupted run of equal readings. */
  function RunAt(rs: seq<nat>, i: nat): (n: nat)
    requires i < |rs|
    ensures n >= 1
  {
    if i == 0 || rs[i - 1] != rs[i] then 1 else RunAt(rs, i - 1) + 1
  }

  /** How many of the first `n` readings are of second `s` and among the first `limit` of their run. */
  function Granted(rs: seq<nat>, n: nat, s: nat, limit: nat): nat
    requires n <= |rs|
  {
    if n == 0 then 0
    else Granted(rs, n - 1, s, limit) + if rs[n - 1] == s && RunAt(rs, n - 1) <= limit then 1 else 0
  }

  // ---------------------------------------------------------------------------------------------
  // One more reading
  // ---------------------------------------------------------------------------------------------

  lemma {:induction false} RunStable(rs: seq<nat>, x: nat, i: nat)
    requires i < |rs|
    ensures RunAt(rs + [x], i) == RunAt(rs, i)
  {
    if i > 0 {
      RunStable(rs, x, i - 1);
    }
  }

  lemma {:induction false} GrantedStable(rs: seq<nat>, x: nat, n: nat, s: nat, limit: nat)
    requires n <= |rs|
    ensures Granted(rs + [x], n, s, limit) == Granted(rs, n, s, limit)
  {
    if n > 0 {
      RunStable(rs, x, n - 1);
      GrantedStable(rs, x, n - 1, s, limit);
    }
  }

  lemma {:induction false} GrantedNext(rs: seq<nat>, x: nat, s: nat, limit: nat)
    ensures Granted(rs + [x], |rs| + 1, s, limit)
            == Granted(rs, |rs|, s, limit) + if x == s && RunAt(rs + [x], |rs|) <= limit then 1 else 0
  {
    GrantedStable(rs, x, |rs|, s, limit);
  }

  /** The limiter's window and count after the readings. */
  ghost predicate Counts(rs: seq<nat>, limit: nat, window: nat, count: nat) {
    if rs == [] then window == 0 && count == 0
    else
      var run := RunAt(rs, |rs| - 1);
      window == rs[|rs| - 1] && count == if run < limit then run else limit
  }

  /** The limiter block grants a reading exactly when fewer than `limit` precede it in its run. */
  lemma {:induction false} LimiterGrants(rs: seq<nat>, limit: nat, window: nat, count: nat, now: nat)
    requires Counts(rs, limit, window, count)
    ensures var before := if window != now then 0 else count;
            var rs' := rs + [now];
            && (before < limit <==> RunAt(rs', |rs|) <= limit)
            && Counts(rs', limit, now, if before < limit then before + 1 else before)
  {
    var rs' := rs + [now];
    if rs != [] {
      RunStable(rs, now, |rs| - 1);
    }
  }

  // ---------------------------------------------------------------------------------------------
  // The bound per second
  // ---------------------------------------------------------------------------------------------

  /** How often `s` was read among the first `n`. */
  function Times(rs: seq<nat>, n: nat, s: nat): nat
    requires n <= |rs|
  {
    if n == 0 then 0 else Times(rs, n - 1, s) + if rs[n - 1] == s then 1 else 0
  }

  /** Among the first `n` readings those of `s` are not interrupted by another second. */
  ghost predicate Unbroken(rs: seq<nat>, n: nat, s: nat)
    requires n <= |rs|
  {
    forall i, j, k :: 0 <= i < j < k < n && rs[i] == s && rs[k] == s ==> rs[j] == s
  }

  ghost predicate Nondecreasing(rs: seq<nat>) { forall i, j :: 0 <= i < j < |rs| ==> rs[i] <= rs[j] }

  lemma OrderedIsUnbroken(rs: seq<nat>, s: nat)
    requires Nondecreasing(rs)
    ensures Unbroken(rs, |rs|, s)
  {
  }

  function Min(a: nat, b: nat): nat { if a < b then a else b }

  lemma {:induction false} NotRead(rs: seq<nat>, n: nat, s: nat)
    requires n <= |rs| && forall i :: 0 <= i < n ==> rs[i] != s
    ensures Times(rs, n, s) == 0
  {
    if n > 0 {
      NotRead(rs, n - 1, s);
    }
  }

  /** Uninterrupted readings of a second form one run. */
  lemma {:induction false} OneRun(rs: seq<nat>, i: nat)
    requires i < |rs| && Unbroken(rs, i + 1, rs[i])
    ensures RunAt(rs, i) == Times(rs, i + 1, rs[i])
  {
    if i > 0 {
      if rs[i - 1] == rs[i] {
        OneRun(rs, i - 1);
      } else {
        NotRead(rs, i, rs[i]);
      }
    }
  }

  lemma {:induction false} GrantedOfOneRun(rs: seq<nat>, n: nat, s: nat, limit: nat)
    requires n <= |rs| && Unbroken(rs, n, s)
    ensures Granted(rs, n, s, limit) == Min(Times(rs, n, s), limit)
  {
    if n > 0 {
      GrantedOfOneRun(rs, n - 1, s, limit);
      if rs[n - 1] == s {
        OneRun(rs, n - 1);
      }
    }
  }

  lemma {:induction false} GrantedIsRead(rs: seq<nat>, n: nat, s: nat, limit: nat)
    requires n <= |rs|
    ensures Granted(rs, n, s, limit) <= Times(rs, n, s)
    ensures limit == 0 ==> Granted(rs, n, s, limit) == 0
  {
    if n > 0 {
      GrantedIsRead(rs, n - 1, s, limit);
    }
  }

  lemma {:induction false} ReadOnce(rs: seq<nat>, n: nat, s: nat, i: nat)
    requires i < n <= |rs| && rs[i] == s
    ensures Times(rs, n, s) >= 1
  {
    if i < n - 1 {
      ReadOnce(rs, n - 1, s, i);
    }
  }

  /** One more reading of `s` right after another does not interrupt. */
  lemma StaysUnbroken(rs: seq<nat>, n: nat, s: nat)
    requires 0 < n <= |rs| && Unbroken(rs, n - 1, s)
    requires rs[n - 1] != s || (n >= 2 && rs[n - 2] == s)
    ensures Unbroken(rs, n, s)
  {
    forall i, j, k | 0 <= i < j < k < n && rs[i] == s && rs[k] == s ensures rs[j] == s {
      if k == n - 1 && j < n - 2 {
        assert rs[n - 2] == s;
      }
    }
  }

  /** A return finds the second read before. */
  lemma {:induction false} ReturnsToRead(rs: seq<nat>, n: nat, s: nat)
    requires 0 < n <= |rs| && rs[n - 1] == s && !Unbroken(rs, n, s)
    ensures Times(rs, n - 1, s) >= 1
  {
    var i, j, k :| 0 <= i < j < k < n && rs[i] == s && rs[k] == s && rs[j] != s;
    ReadOnce(rs, n - 1, s, i);
  }

  /** Once interrupted, a second is granted one more than the limit as soon as it is read that often. */
  lemma {:induction false} GrantedOfBroken(rs: seq<nat>, n: nat, s: nat, limit: nat)
    requires n <= |rs| && !Unbroken(rs, n, s) && limit >= 1
    ensures Granted(rs, n, s, limit) >= Min(Times(rs, n, s), limit + 1)
    ensures rs[n - 1] == s ==> Granted(rs, n, s, limit) >= Min(RunAt(rs, n - 1), limit) + 1
    decreases n
  {
    if rs[n - 1] == s {
      ReturnsToRead(rs, n, s);
    }
    if Unbroken(rs, n - 1, s) {
      GrantedOfOneRun(rs, n - 1, s, limit);
      if rs[n - 1] != s || (n >= 2 && rs[n - 2] == s) {
        StaysUnbroken(rs, n, s);
      }
    } else {
      GrantedOfBroken(rs, n - 1, s, limit);
    }
  }

  /** Nothing is granted at all, or the readings of `s` are no more than the limit, or they are not interrupted. */
  ghost predicate WithinLimit(rs: seq<nat>, s: nat, limit: nat) {
    limit == 0 || Times(rs, |rs|, s) <= limit || Unbroken(rs, |rs|, s)
  }

  /** At most the limit is granted to a second if and only if it is read at most that often, or without interruption. */
  lemma {:induction false} BoundHoldsExactly(rs: seq<nat>, s: nat, limit: nat)
    ensures Granted(rs, |rs|, s, limit) <= limit <==> WithinLimit(rs, s, limit)
  {
    if Unbroken(rs, |rs|, s) {
      GrantedOfOneRun(rs, |rs|, s, limit);
    } else {
      GrantedIsRead(rs, |rs|, s, limit);
      if limit >= 1 {
        GrantedOfBroken(rs, |rs|, s, limit);
      }
    }
  }
}
