/**
 The token bucket script as it runs in Redis: a loop over the keys of one invocation that updates the store
 in place, and the two Rust entry points that read its answer.
 */
module RateLimiter {
  import opened Wrappers
  import opened Arithmetic
  import opened TokenBucket

  function CellIn(cells: map<string, Cell>, key: string): Cell {
    if key in cells then cells[key] else Absent
  }

  ghost predicate AllBounded(limit: Limit, cells: map<string, Cell>) {
    forall key :: key in cells ==> Bounded(limit, cells[key])
  }

  /** The cell after `n` attempts at one moment, and the verdict of the last of them. */
  ghost function Repeated(limit: Limit, cell: Cell, now: int, n: nat): (out: (Cell, Verdict))
    requires limit.Valid() && Bounded(limit, cell) && n > 0
    ensures Bounded(limit, out.0)
  {
    Attempt(limit, if n == 1 then cell else Repeated(limit, cell, now, n - 1).0, now)
  }

  /**
   The effect of the script on a list of keys that may repeat: a key listed n times makes n attempts, its
   last verdict is the one reported, and keys that are not listed keep their cells.
   */
  ghost predicate ScriptEffect(limit: Limit, keys: seq<string>, now: int, before: map<string, Cell>,
                               after: map<string, Cell>, results: map<string, Verdict>)
    requires limit.Valid() && AllBounded(limit, before)
  {
    && AllBounded(limit, after)
    && (forall key :: key in results <==> key in keys)
    && (forall key :: key in results ==>
          multiset(keys)[key] > 0 &&
          (CellIn(after, key), results[key])
          == Repeated(limit, CellIn(before, key), now, multiset(keys)[key]))
    && (forall key :: key !in results ==> CellIn(after, key) == CellIn(before, key))
  }

  /** With no repeated key, every key makes one attempt on its own cell, whatever the others do. */
  lemma DistinctKeysAreIndependent(limit: Limit, keys: seq<string>, now: int, before: map<string, Cell>,
                                   after: map<string, Cell>, results: map<string, Verdict>)
    requires limit.Valid() && AllBounded(limit, before)
    requires ScriptEffect(limit, keys, now, before, after, results)
    requires forall i, j :: 0 <= i < j < |keys| ==> keys[i] != keys[j]
    ensures forall key :: key in keys ==>
      (CellIn(after, key), results[key]) == Attempt(limit, CellIn(before, key), now)
  {
    forall key | key in keys
      ensures (CellIn(after, key), results[key]) == Attempt(limit, CellIn(before, key), now)
    {
      CountInDistinct(keys, key);
    }
  }

  lemma {:induction false} CountInDistinct(keys: seq<string>, key: string)
    requires forall i, j :: 0 <= i < j < |keys| ==> keys[i] != keys[j]
    ensures multiset(keys)[key] == if key in keys then 1 else 0
  {
    if keys != [] {
      assert keys == [keys[0]] + keys[1..];
      assert forall i :: 1 <= i < |keys| ==> keys[i] != keys[0];
      assert key in keys <==> key == keys[0] || key in keys[1..];
      CountInDistinct(keys[1..], key);
    }
  }

  class RateLimiter {
    /** The keys Redis holds, with their deadlines. */
    var cells: map<string, Cell>

    constructor ()
      ensures cells == map[]
    {
      cells := map[];
    }

    /** Redis drops a key whose deadline has passed. */
    method Expire(key: string, now: int)
      requires key in cells && Enabled(cells[key], TokenBucket.Expire(now))
      modifies this
      ensures CellIn(cells, key) == Absent
      ensures forall other :: other != key ==> CellIn(cells, other) == CellIn(old(cells), other)
    {
      cells := cells - {key};
    }

    /** The body of the script's loop. */
    method ScriptKey(key: string, limit: Limit, now: int) returns (verdict: Verdict)
      requires limit.Valid() && AllBounded(limit, cells)
      modifies this
      ensures (CellIn(cells, key), verdict) == Attempt(limit, CellIn(old(cells), key), now)
      ensures forall other :: other != key ==> CellIn(cells, other) == CellIn(old(cells), other)
      ensures AllBounded(limit, cells)
    {
      var refilledAt, tokens := now, limit.maxTokens;
      if key in cells && cells[key].Live? {
        refilledAt, tokens := cells[key].bucket.refilledAt, cells[key].bucket.tokens;
      }
      if now >= refilledAt + limit.interval {
        var numRefills := (now - refilledAt) / limit.interval;
        DivBounds(now - refilledAt, limit.interval);
        MulStep(0, numRefills, limit.refillRate);
        tokens := Min(limit.maxTokens, tokens + numRefills * limit.refillRate);
        refilledAt := refilledAt + numRefills * limit.interval;
      }
      if tokens == 0 {
        verdict := Verdict(-1, refilledAt + limit.interval);
      } else {
        var remaining := tokens - 1;
        var expireAt := CeilDiv(limit.maxTokens - remaining, limit.refillRate) * limit.interval;
        cells := cells[key := Live(Bucket(refilledAt, remaining), now + expireAt)];
        verdict := Verdict(remaining, refilledAt + limit.interval);
      }
    }

    method Script(keys: seq<string>, limit: Limit, now: int) returns (results: map<string, Verdict>)
      requires limit.Valid() && AllBounded(limit, cells)
      modifies this
      ensures ScriptEffect(limit, keys, now, old(cells), cells, results)
    {
      results := map[];
      for i := 0 to |keys|
        invariant ScriptEffect(limit, keys[..i], now, old(cells), cells, results)
      {
        ghost var before, answers := cells, results;
        var verdict := ScriptKey(keys[i], limit, now);
        results := results[keys[i] := verdict];
        assert keys[..i + 1] == keys[..i] + [keys[i]];
        ScriptStep(limit, keys[..i], keys[i], now, old(cells), before, answers, cells, results);
      }
      assert keys[..|keys|] == keys;
    }

    /** `token_bucket_many`: one verdict for every key asked about. */
    method TokenBucketMany(keys: seq<string>, limit: Limit, now: int) returns (results: map<string, Verdict>)
      requires limit.Valid() && AllBounded(limit, cells)
      modifies this
      ensures ScriptEffect(limit, keys, now, old(cells), cells, results)
    {
      results := Script(keys, limit, now);
    }

    /** `token_bucket`: an error carrying the reset time in seconds exactly when the call is rejected. */
    method TokenBucketOne(key: string, limit: Limit, now: int) returns (r: Result<(), int>)
      requires limit.Valid() && AllBounded(limit, cells)
      modifies this
      ensures AllBounded(limit, cells)
      ensures r.Ok? <==> Admits(limit, CellIn(old(cells), key), Call(now))
      ensures r.Err? ==> r.error == Attempt(limit, CellIn(old(cells), key), now).1.reset / 1000
      ensures CellIn(cells, key) == Apply(limit, CellIn(old(cells), key), Call(now))
      ensures forall other :: other != key ==> CellIn(cells, other) == CellIn(old(cells), other)
    {
      var results := TokenBucketMany([key], limit, now);
      DistinctKeysAreIndependent(limit, [key], now, old(cells), cells, results);
      assert key in [key];
      var verdict := results[key];
      r := if verdict.remaining < 0 then Err(verdict.reset / 1000) else Ok(());
    }
  }

  lemma ScriptStep(limit: Limit, done: seq<string>, key: string, now: int, start: map<string, Cell>,
                   before: map<string, Cell>, answers: map<string, Verdict>,
                   after: map<string, Cell>, results: map<string, Verdict>)
    requires limit.Valid() && AllBounded(limit, start)
    requires ScriptEffect(limit, done, now, start, before, answers)
    requires AllBounded(limit, after)
    requires results.Keys == answers.Keys + {key}
    requires (CellIn(after, key), results[key]) == Attempt(limit, CellIn(before, key), now)
    requires forall other :: other != key ==> CellIn(after, other) == CellIn(before, other)
    requires forall other :: other in answers && other != key ==> results[other] == answers[other]
    ensures ScriptEffect(limit, done + [key], now, start, after, results)
  {
    forall k ensures k in results <==> k in done + [key] {
      assert k in answers <==> k in done;
    }
    forall k | k in results ensures multiset(done + [key])[k] > 0 &&
      (CellIn(after, k), results[k]) == Repeated(limit, CellIn(start, k), now, multiset(done + [key])[k])
    {
      if k == key {
        CountSnoc(done, key, k);
        OneMoreAttempt(limit, done, key, now, start, before, answers, after, results);
      } else {
        SameAnswer(limit, done, key, now, start, before, answers, after, results, k);
      }
    }
  }

  lemma SameAnswer(limit: Limit, done: seq<string>, key: string, now: int, start: map<string, Cell>,
                   before: map<string, Cell>, answers: map<string, Verdict>,
                   after: map<string, Cell>, results: map<string, Verdict>, k: string)
    requires limit.Valid() && AllBounded(limit, start) && k in answers && k in results && k != key
    requires ScriptEffect(limit, done, now, start, before, answers)
    requires CellIn(after, k) == CellIn(before, k) && results[k] == answers[k]
    ensures multiset(done + [key])[k] > 0 &&
      (CellIn(after, k), results[k]) == Repeated(limit, CellIn(start, k), now, multiset(done + [key])[k])
  {
    CountSnoc(done, key, k);
  }

  lemma OneMoreAttempt(limit: Limit, done: seq<string>, key: string, now: int, start: map<string, Cell>,
                       before: map<string, Cell>, answers: map<string, Verdict>,
                       after: map<string, Cell>, results: map<string, Verdict>)
    requires limit.Valid() && AllBounded(limit, start) && key in results
    requires ScriptEffect(limit, done, now, start, before, answers)
    requires (CellIn(after, key), results[key]) == Attempt(limit, CellIn(before, key), now)
    ensures (CellIn(after, key), results[key])
         == Repeated(limit, CellIn(start, key), now, multiset(done)[key] + 1)
  {
    assert key in answers <==> key in done;
  }

  lemma CountSnoc(keys: seq<string>, key: string, k: string)
    ensures multiset(keys + [key])[k] == multiset(keys)[k] + (if k == key then 1 else 0)
  {
    assert multiset(keys + [key]) == multiset(keys) + multiset{key};
  }
}
