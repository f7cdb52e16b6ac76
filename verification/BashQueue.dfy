/** The queue of bashed characters and the list of timed events behind it. */
module BashQueue {
  import opened Options
  import opened BashSpec
  import opened Seqs

  /** An event that counts down. A bash belongs to a character; other events call other code. */
  class Event {
    var timeRemaining: int
    const who: Option<Who>

    constructor (time: int, who: Option<Who>)
      ensures timeRemaining == time && this.who == who
    {
      timeRemaining := time;
      this.who := who;
    }
  }

  function Of(e: Event): Who {
    if e.who.Some? then e.who.value else 0
  }

  lemma InsertDistinct<T>(s: seq<T>, i: nat, x: T)
    requires Distinct(s) && x !in s && i <= |s|
    ensures Distinct(s[..i] + [x] + s[i..]) && ToSet(s[..i] + [x] + s[i..]) == ToSet(s) + {x}
  {
  }

  class Combat {
    var events: seq<Event>
    var queue: seq<Event>
    var bashed: set<Who>
    /** What the fields above stand for. */
    ghost var bashes: Bashes

    /** The bash events of the list are those of the queue, one for each bashed character. */
    ghost predicate Valid()
      reads this, queue
    {
      && Distinct(events) && Distinct(queue) && Paired(ToSet(events), ToSet(queue))
      && bashed == bashes.Keys && Shows(ToSet(queue), bashes)
    }

    constructor ()
      ensures Valid() && events == [] && bashes == map[]
    {
      events, queue, bashed, bashes := [], [], {}, map[];
    }

    /** Insert an event; the place does not matter to anybody. */
    method AddEvent(time: int, who: Option<Who>) returns (e: Event)
      requires Distinct(events)
      modifies this`events
      ensures fresh(e) && e.timeRemaining == time && e.who == who
      ensures Distinct(events) && ToSet(events) == old(ToSet(events)) + {e}
    {
      e := new Event(time, who);
      var i := 0;
      if events != [] && time > events[0].timeRemaining {
        i := 1;
        while i < |events| && events[i].timeRemaining > time
          invariant 0 <= i <= |events| && events == old(events)
        {
          i := i + 1;
        }
      }
      InsertDistinct(events, i, e);
      events := events[..i] + [e] + events[i..];
    }

    method RemoveEvent(e: Event)
      requires Distinct(events)
      modifies this`events
      ensures events == Without(old(events), e)
    {
      var i := 0;
      while i < |events| && events[i] != e
        invariant 0 <= i <= |events| && events == old(events) && e !in events[..i]
      {
        i := i + 1;
      }
      if i < |events| {
        WithoutAt(events, i);
        events := events[..i] + events[i + 1..];
      } else {
        assert events[..i] == events;
        WithoutNone(events, e);
      }
    }

    method Lengthen(e: Event, pulses: int)
      requires Valid() && e in queue
      modifies this`bashes, e
      ensures Valid() && bashes == SetBash(old(bashes), Of(e), pulses)
      ensures e.timeRemaining == if old(e.timeRemaining) + pulses > 0 then old(e.timeRemaining) + pulses else 0
    {
      e.timeRemaining := e.timeRemaining + pulses;
      e.timeRemaining := Max(0, e.timeRemaining);
      bashes := SetBash(bashes, Of(e), pulses);
    }

    /** An event for `who` has been added behind the queue `was`, and to the list. */
    ghost predicate NewBash(was: seq<Event>, who: Who, pulses: int)
      reads this, queue
    {
      && |queue| == |was| + 1 && queue[..|was|] == was
      && var e := queue[|was|]; e in events && e.who == Some(who) && e.timeRemaining == pulses
    }

    method Enqueue(who: Who, pulses: int)
      requires Valid() && who !in bashes
      modifies this
      ensures Valid() && fresh(ToSet(queue) - old(ToSet(queue)))
      ensures bashes == SetBash(old(bashes), who, pulses)
      ensures bashed == old(bashed) + {who} && NewBash(old(queue), who, pulses)
    {
      var e := AddEvent(pulses, Some(who));
      ShowsMore(ToSet(queue), bashes, e);
      DistinctTogether(queue, [e]);
      assert ToSet(queue + [e]) == ToSet(queue) + {e};
      queue := queue + [e];
      bashed := bashed + {who};
      bashes := SetBash(bashes, who, pulses);
    }

    method SetBashState(who: Who, pulses: int)
      requires Valid()
      modifies this, queue
      ensures Valid() && fresh(ToSet(queue) - old(ToSet(queue)))
      ensures bashes == SetBash(old(bashes), who, pulses)
      ensures bashed == old(bashed) + {who}
      ensures old(who in bashed) ==> events == old(events) && queue == old(queue)
      ensures old(who !in bashed) ==> NewBash(old(queue), who, pulses)
      ensures forall e <- old(queue) :: e.timeRemaining ==
                                        if e.who != Some(who) then old(e.timeRemaining)
                                        else if old(e.timeRemaining) + pulses > 0 then old(e.timeRemaining) + pulses else 0
    {
      var i := 0;
      while i < |queue| && Of(queue[i]) != who
        invariant 0 <= i <= |queue|
        invariant forall j :: 0 <= j < i ==> Of(queue[j]) != who
      {
        i := i + 1;
      }
      if i < |queue| {
        Lengthen(queue[i], pulses);
      } else {
        Enqueue(who, pulses);
      }
    }

    /** A bashed character who is left alone by the one who fled gets up a round sooner: the event
        that performFlee shortens is always there. */
    method ShortenOnFlee(was: Who)
      requires Valid()
      modifies this, queue
      ensures Valid() && events == old(events) && queue == old(queue)
      ensures bashes == Step(old(bashes), Flee(was))
    {
      if was in bashed {
        SetBashState(was, -PULSE_VIOLENCE);
      }
    }

    /** The destructor of a character takes the character's events away. */
    method Depart(who: Who)
      requires Valid()
      modifies this
      ensures Valid() && ToSet(queue) <= old(ToSet(queue))
      ensures bashes == Step(old(bashes), Leave(who)) && bashed == old(bashed) - {who}
      ensures forall e <- old(queue) :: e.who != Some(who) <==> e in queue
    {
      var i := 0;
      while i < |queue|
        invariant 0 <= i <= |queue|
        invariant Distinct(events) && Distinct(queue) && Paired(ToSet(events), ToSet(queue))
        invariant ToSet(queue) <= old(ToSet(queue)) && bashes == old(bashes) && bashed == old(bashed)
        invariant forall e <- old(ToSet(queue)) :: Of(e) != who ==> e in queue
        invariant forall j :: 0 <= j < i ==> Of(queue[j]) != who
      {
        if Of(queue[i]) == who {
          WithoutContents(events, queue[i]);
          RemoveEvent(queue[i]);
          WithoutContents(queue, queue[i]);
          WithoutAt(queue, i);
          queue := queue[..i] + queue[i + 1..];
        } else {
          i := i + 1;
        }
      }
      ShowsLess(old(ToSet(queue)), bashes, ToSet(queue), who);
      bashes := bashes - {who};
      bashed := bashed - {who};
    }

    /** BashStand, and the removal of the event that called it. */
    method Expire(e: Event)
      requires Valid() && e in events
      modifies this
      ensures Valid() && events == Without(old(events), e) && ToSet(queue) <= old(ToSet(queue))
      ensures bashes == if e.who.Some? then old(bashes) - {e.who.value} else old(bashes)
    {
      WithoutContents(events, e);
      if e.who.Some? {
        WithoutContents(queue, e);
        ShowsLess(ToSet(queue), bashes, ToSet(Without(queue, e)), e.who.value);
        bashed := bashed - {e.who.value};
        bashes := bashes - {e.who.value};
        queue := Without(queue, e);
      }
      RemoveEvent(e);
    }

    method CountDown(e: Event) returns (fired: bool)
      requires Valid() && e in events
      modifies this, e
      ensures Valid() && ToSet(queue) <= old(ToSet(queue))
      ensures events == if fired then Without(old(events), e) else old(events)
      ensures bashes == if e.who.Some? then TickOne(old(bashes), e.who.value) else old(bashes)
    {
      e.timeRemaining := e.timeRemaining - 1;
      if e.who.Some? {
        bashes := bashes[e.who.value := e.timeRemaining];
      }
      fired := e.timeRemaining <= 0;
      if fired {
        Expire(e);
      }
    }

    /** One pulse of the event list counts every bash down by one and ends those that run out. */
    method ProcessEvents()
      requires Valid()
      modifies this, events
      ensures Valid() && ToSet(queue) <= old(ToSet(queue))
      ensures bashes == Step(old(bashes), Pulse)
      ensures forall e <- old(queue) :: if old(e.timeRemaining) < 2 then e !in queue && Of(e) !in bashed
                                        else e in queue && Of(e) in bashed && e.timeRemaining == old(e.timeRemaining) - 1
    {
      ghost var was, m, k := events, bashes, 0;
      assert Lists(was, ToSet(queue), m);
      var i := 0;
      while i < |events|
        invariant 0 <= i <= |events| && 0 <= k <= |was| && events[i..] == was[k..]
        invariant Valid() && ToSet(queue) <= old(ToSet(queue)) && ToSet(events) <= ToSet(was)
        invariant bashes == TickAll(m, Bashed(was[..k]))
        decreases |events| - i
      {
        hide Shows, Paired, TickAll, Lists;
        var e := events[i];
        ghost var before := events;
        SameRest(before, i, was, k);
        TickNext(was, old(ToSet(queue)), m, k);
        var fired := CountDown(e);
        if fired {
          WithoutContents(before, e);
          WithoutAt(before, i);
          assert events[i..] == before[i + 1..];
        } else {
          i := i + 1;
        }
        k := k + 1;
      }
      assert was[..k] == was;
      TickedAll(was, old(ToSet(queue)), m);
      StaysQueued(old(ToSet(queue)), ToSet(queue), bashes);
    }
  }

  /** Every queued event is in the list and every bash event of the list is queued. */
  ghost predicate Paired(events: set<Event>, queue: set<Event>) {
    queue <= events && (forall e <- queue :: e.who.Some?) && (forall e <- events - queue :: e.who.None?)
  }

  /** The queue holds one event for each bashed character, with the pulses left. */
  ghost predicate Shows(queue: set<Event>, bashes: Bashes)
    reads queue
  {
    && bashes.Keys == (set e <- queue :: Of(e))
    && (forall e <- queue :: Of(e) in bashes && bashes[Of(e)] == e.timeRemaining)
    && (forall d <- queue, e <- queue :: Of(d) == Of(e) ==> d == e)
  }

  lemma ShowsMore(queue: set<Event>, bashes: Bashes, e: Event)
    requires Shows(queue, bashes) && Of(e) !in bashes
    ensures Shows(queue + {e}, bashes[Of(e) := e.timeRemaining])
  {
  }

  lemma ShowsLess(queue: set<Event>, bashes: Bashes, rest: set<Event>, who: Who)
    requires Shows(queue, bashes) && rest == set e | e in queue && Of(e) != who
    ensures Shows(rest, bashes - {who})
  {
  }

  /** The event of one who still lies is still queued. */
  lemma StaysQueued(was: set<Event>, queue: set<Event>, bashes: Bashes)
    requires Shows(queue, bashes) && queue <= was
    requires forall d <- was, e <- was :: Of(d) == Of(e) ==> d == e
    ensures forall e <- was :: e in queue <==> Of(e) in bashes
    ensures forall e <- queue :: e.timeRemaining == bashes[Of(e)]
  {
  }

  /** The characters that have a bash among the events. */
  function Bashed(events: seq<Event>): set<Who> {
    set e | e in events && e.who.Some? :: e.who.value
  }

  /** The list of events as it stands before a pulse. */
  ghost predicate Lists(events: seq<Event>, queue: set<Event>, m: Bashes) {
    && Distinct(events) && Paired(ToSet(events), queue)
    && m.Keys == (set e <- queue :: Of(e))
    && (forall d <- queue, e <- queue :: Of(d) == Of(e) ==> d == e)
  }

  function TickOne(m: Bashes, who: Who): Bashes {
    if who in m && m[who] - 1 > 0 then m[who := m[who] - 1] else m - {who}
  }

  function TickAll(m: Bashes, done: set<Who>): Bashes {
    map w | w in m && (w in done ==> m[w] - 1 > 0) :: if w in done then m[w] - 1 else m[w]
  }

  lemma SameRest<T>(s: seq<T>, i: nat, t: seq<T>, k: nat)
    requires i < |s| && k <= |t| && s[i..] == t[k..]
    ensures k < |t| && s[i] == t[k] && s[i + 1..] == t[k + 1..]
  {
  }

  lemma TickOneMore(m: Bashes, done: set<Who>, w: Who)
    requires w in m && w !in done
    ensures TickOne(TickAll(m, done), w) == TickAll(m, done + {w})
  {
  }

  /** No bash is counted down twice in a pulse. */
  lemma TickNext(events: seq<Event>, queue: set<Event>, m: Bashes, k: nat)
    requires Lists(events, queue, m) && k < |events|
    ensures TickAll(m, Bashed(events[..k + 1])) ==
            var n := TickAll(m, Bashed(events[..k]));
            if events[k].who.Some? then TickOne(n, events[k].who.value) else n
  {
    hide TickAll, TickOne, Lists;
    var e := events[k];
    assert events[..k + 1] == events[..k] + [e];
    if e.who.Some? {
      NotYet(events, queue, m, k);
      TickOneMore(m, Bashed(events[..k]), e.who.value);
      assert Bashed(events[..k + 1]) == Bashed(events[..k]) + {e.who.value};
    } else {
      assert Bashed(events[..k + 1]) == Bashed(events[..k]);
    }
  }

  lemma NotYet(events: seq<Event>, queue: set<Event>, m: Bashes, k: nat)
    requires Lists(events, queue, m) && k < |events| && events[k].who.Some?
    ensures events[k].who.value in m && events[k].who.value !in Bashed(events[..k])
  {
  }

  lemma TickedAll(events: seq<Event>, queue: set<Event>, m: Bashes)
    requires Lists(events, queue, m)
    ensures TickAll(m, Bashed(events)) == Tick(m)
  {
  }
}
