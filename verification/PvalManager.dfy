/** PvalManager itself, with the database table it writes through to. */
module PvalManagers {
  import opened PvalKey
  import opened PvalSpec
  import opened Seqs

  class PvalManager {
    var pvals: map<string, Entry>
    var database: map<Row, string>

    function Contents(): Store
      reads this
    {
      Store(pvals, database)
    }

    constructor (table: map<Row, string>, cache: map<string, Entry>)
      ensures Contents() == Store(cache, table)
    {
      pvals, database := cache, table;
    }

    /** sendQuery, which throws unless `ok`. */
    method SendQuery(q: Query, ok: bool)
      modifies this`database
      ensures database == Apply(old(database), q, ok)
    {
      if ok {
        match q
        case Replace(row, value) => database := database[row := value];
        case Delete(row) => database := database - {row};
      }
    }

    method GetPval(r: Row) returns (value: string)
      ensures value == Get(Contents(), r)
    {
      var k := FullKey(r);
      if k in pvals && !pvals[k].needsDelete { return pvals[k].value; }
      return "";
    }

    method SetPval(r: Row, value: string, instant: bool, ok: bool) returns (done: bool)
      modifies this
      ensures Contents() == WithPval(old(Contents()), r, value, instant, ok)
      ensures done <==> !instant || ok
    {
      if instant {
        SendQuery(Replace(Truncated(r), value), ok);
        if !ok { return false; }
      }
      pvals := pvals[FullKey(r) := Entry(value, !instant, false)];
      return true;
    }

    method DeletePval(r: Row, instant: bool, ok: bool)
      modifies this
      ensures Contents() == WithoutPval(old(Contents()), r, instant, ok)
    {
      var k := FullKey(r);
      if k !in pvals { return; }
      if instant {
        SendQuery(Delete(Truncated(r)), ok);
        pvals := pvals - {k};
      } else {
        pvals := pvals[k := pvals[k].(needsDelete := true)];
      }
    }

    method SaveDirtyPvals(order: seq<string>, failing: set<string>) returns (sent: seq<Query>)
      requires Distinct(order) && ToSet(order) == pvals.Keys
      modifies this
      ensures Contents() == Flush(old(Contents()), order, failing)
      ensures sent == FlushQueries(old(Contents()), order)
    {
      hide Parsed, Flush, FlushQueries, Truncated, Distinct, ToSet;
      sent := [];
      ghost var start := Contents();
      FlushStart(start, order, failing);
      var i := 0;
      while i < |order|
        invariant i <= |order|
        invariant Flush(Contents(), order[i..], failing) == Flush(start, order, failing)
        invariant Unvisited(start, Contents(), order, i)
        invariant sent + FlushQueries(start, order[i..]) == FlushQueries(start, order)
      {
        var k := order[i];
        FlushTurn(start, Contents(), order, i, failing);
        if pvals[k].needsDelete {
          SendQuery(Delete(Parsed(k)), k !in failing);
          sent := sent + [Delete(Parsed(k))];
          pvals := pvals - {k};
        } else if pvals[k].needsSave {
          SendQuery(Replace(Truncated(Parsed(k)), pvals[k].value), k !in failing);
          sent := sent + [Replace(Truncated(Parsed(k)), pvals[k].value)];
          pvals := pvals[k := pvals[k].(needsSave := false)];
        }
        i := i + 1;
      }
      FlushEnd(start, Contents(), order, failing);
    }
  }

  /** The keys still to be visited are as they were. */
  ghost predicate Unvisited(start: Store, now: Store, order: seq<string>, i: nat) {
    forall j :: i <= j < |order| ==>
      order[j] in start.cache && order[j] in now.cache && now.cache[order[j]] == start.cache[order[j]]
  }

  lemma {:induction false} FlushStart(s: Store, order: seq<string>, failing: set<string>)
    requires Distinct(order) && ToSet(order) == s.cache.Keys
    ensures order[0..] == order && Unvisited(s, s, order, 0) && Distinct(order)
  {
  }

  lemma {:induction false} FlushTurn(start: Store, now: Store, order: seq<string>, i: nat, failing: set<string>)
    requires i < |order| && Unvisited(start, now, order, i) && Distinct(order)
    ensures order[i] in now.cache
    ensures var k := order[i];
            var after := FlushEntry(now, k, k !in failing);
            && Flush(now, order[i..], failing) == Flush(after, order[i + 1..], failing)
            && Unvisited(start, after, order, i + 1)
            && FlushQueries(start, order[i..]) ==
               (match QueryFor(k, now.cache[k]) case Some(q) => [q] case None => []) + FlushQueries(start, order[i + 1..])
  {
  }

  lemma {:induction false} FlushEnd(start: Store, now: Store, order: seq<string>, failing: set<string>)
    ensures Flush(now, order[|order|..], failing) == now && FlushQueries(start, order[|order|..]) == []
  {
  }
}
