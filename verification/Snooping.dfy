/** Snooping as two pointers in every descriptor. */
module Snooping {
  import opened Options
  import opened SnoopRelay
  import opened SnoopSpec

  class Descriptor {
    var snooping: Descriptor?
    var snoopBy: Descriptor?
    var permitted: bool    // PermissionToSnoop of the character

    constructor ()
      ensures snooping == null && snoopBy == null && !permitted
    {
      snooping, snoopBy, permitted := null, null, false;
    }

    method Unlink(ghost all: set<Descriptor>)
      requires this in all && Mutual(all) && snooping != null
      modifies all
      ensures Mutual(all)
      ensures State(all).links == old(State(all)).links - {this}
      ensures State(all).permitted == old(State(all)).permitted
    {
      snooping.snoopBy := null;
      snooping := null;
    }

    method SetPermission(ghost all: set<Descriptor>, on: bool)
      requires this in all && Mutual(all)
      modifies all
      ensures Mutual(all) && forall d <- all :: d.snoopBy == old(d.snoopBy)
      ensures State(all).links == old(State(all)).links
      ensures State(all).permitted == if on then old(State(all)).permitted + {this} else old(State(all)).permitted - {this}
    {
      permitted := on;
    }

    method StopSnooping(ghost all: set<Descriptor>)
      requires this in all && Mutual(all)
      modifies all
      ensures Mutual(all)
      ensures State(all) == SnoopSpec.Step(old(State(all)), Stop(this))
    {
      if snooping == null { return; }
      assert this in State(all).links;
      hide Mutual, State;
      Unlink(all);
      SetPermission(all, false);
    }

    method Watch(ghost all: set<Descriptor>, victim: Descriptor)
      requires this in all && victim in all && Mutual(all) && victim != this && victim.snoopBy == null
      modifies all
      ensures Mutual(all)
      ensures State(all).links == old(State(all)).links[this := victim]
      ensures State(all).permitted == old(State(all)).permitted
    {
      hide State;
      ghost var before := State(all).links;
      LinksShow(all);
      if snooping != null { snooping.snoopBy := null; }
      snooping := victim;
      victim.snoopBy := this;
      assert Mutual(all) by {
        forall d | d in all ensures d.snooping != null ==> d.snooping in all && d.snooping.snoopBy == d {}
        forall d | d in all ensures d.snoopBy != null ==> d.snoopBy in all && d.snoopBy.snooping == d {}
      }
      hide Mutual;
      LinksAre(all, before[this := victim]);
      SamePermissions(all);
    }

    /** do_snoop on a character that may have no descriptor. */
    method DoSnoop(ghost all: set<Descriptor>, victim: Descriptor?, asks: bool)
      requires this in all && (victim != null ==> victim in all) && Mutual(all)
      modifies all
      ensures Mutual(all)
      ensures victim != null ==> State(all) == SnoopSpec.Step(old(State(all)), Snoop(this, victim, asks))
      ensures victim == null ==> State(all) == old(State(all))
    {
      if victim == null { return; }
      ghost var before := State(all);
      TheSnooper(all, victim);
      if victim == this {
        StopSnooping(all);
      } else if victim.snoopBy == null && victim.snooping != this {
        assert !SnoopedBy(before.links, this, victim);
        hide Mutual, State;
        SetPermission(all, !asks);
        Watch(all, victim);
      }
    }

    method DoDeny(ghost all: set<Descriptor>)
      requires this in all && Mutual(all)
      modifies all
      ensures Mutual(all)
      ensures State(all) == SnoopSpec.Step(old(State(all)), Deny(this))
    {
      if snoopBy == null || snoopBy.permitted { return; }
      var snooper := snoopBy;
      snoopBy := null;
      snooper.snooping := null;
    }

    method DoGrant(ghost all: set<Descriptor>)
      requires this in all && Mutual(all)
      modifies all
      ensures Mutual(all)
      ensures State(all) == SnoopSpec.Step(old(State(all)), Grant(this))
    {
      if snoopBy == null || snoopBy.permitted { return; }
      snoopBy.permitted := true;
    }

    /** The part of cleanup about snooping; the descriptor itself goes away. */
    method Cleanup(ghost all: set<Descriptor>)
      requires this in all && Mutual(all)
      modifies all
      ensures Mutual(all - {this})
      ensures State(all - {this}).links == SnoopSpec.Step(old(State(all)), Leave(this)).links
      ensures forall d <- all :: d.permitted == old(d.permitted)
    {
      hide State, Snoopers;
      ghost var before, gone := State(all).links, Snoopers(State(all).links, this);
      LinksShow(all);
      TheSnooper(all, this);
      if snooping != null { snooping.snoopBy := null; }
      if snoopBy != null { snoopBy.snooping := null; }
      LinksAre(all - {this}, before - {this} - gone);
      assert Mutual(all - {this}) by {
        forall d | d in all - {this}
          ensures d.snooping != null ==> d.snooping in all - {this} && d.snooping.snoopBy == d
        {}
        forall d | d in all - {this}
          ensures d.snoopBy != null ==> d.snoopBy in all - {this} && d.snoopBy.snooping == d
        {}
      }
    }

    method ForgetTarget(ghost all: set<Descriptor>)
      requires this in all && Mutual(all)
      modifies all
      ensures Mutual(all)
      ensures State(all).links == old(State(all)).links - {this}
      ensures State(all).permitted == old(State(all)).permitted
    {
      if snooping != null && snooping.snoopBy != null {
        Unlink(all);
      }
    }

    method ForgetSnooper(ghost all: set<Descriptor>)
      requires this in all && Mutual(all)
      modifies all
      ensures Mutual(all)
      ensures State(all).links == old(State(all)).links - Snoopers(old(State(all)).links, this)
      ensures State(all).permitted == old(State(all)).permitted
    {
      hide State, Snoopers;
      ghost var before, gone := State(all).links, Snoopers(State(all).links, this);
      LinksShow(all);
      TheSnooper(all, this);
      if snoopBy != null {
        snoopBy.snooping := null;
        snoopBy := null;
      }
      LinksAre(all, before - gone);
      SamePermissions(all);
    }

    /** sendInstant, where climbing through the watchers ends: who is written what, in order. */
    method SendInstant(text: string, ghost all: set<Descriptor>, ghost n: nat) returns (log: seq<(Descriptor, string)>)
      requires this in all && Mutual(all) && Ends(State(all), this, n)
      ensures SnoopRelay.SendInstant(State(all), this, text, n + 1) == Some(log)
      decreases n
    {
      TheWatcher(all, this);
      hide Mutual, State;
      log := [];
      if snoopBy != null && snoopBy.permitted {
        SendsOn(State(all), this, snoopBy, text, n);
        var mark := snoopBy.SendInstant("% ", all, n - 1);
        var copy := snoopBy.SendInstant(text, all, n - 1);
        log := mark + copy;
      }
      log := log + [(this, text)];
      assert log == if snoopBy != null && snoopBy.permitted then log else [(this, text)];
    }

    /** The part of Character::Extract about snooping; the descriptor stays. */
    method Forget(ghost all: set<Descriptor>)
      requires this in all && Mutual(all)
      modifies all
      ensures Mutual(all) && State(all) == SnoopSpec.Step(old(State(all)), Leave(this))
    {
      hide Mutual, State;
      ForgetTarget(all);
      ForgetSnooper(all);
    }
  }

  lemma TheWatcher(all: set<Descriptor>, d: Descriptor)
    requires Mutual(all) && d in all
    ensures Watchers(State(all), d) ==
            if d.snoopBy != null && d.snoopBy.permitted then {d.snoopBy as Descriptor} else {}
  {
    TheSnooper(all, d);
    assert Watchers(State(all), d) == Snoopers(State(all).links, d) * State(all).permitted;
  }

  /** The two pointers are each other's inverse. */
  ghost predicate Mutual(all: set<Descriptor>)
    reads all
  {
    && (forall d <- all :: d.snooping != null ==> d.snooping in all && d.snooping.snoopBy == d)
    && (forall d <- all :: d.snoopBy != null ==> d.snoopBy in all && d.snoopBy.snooping == d)
  }

  ghost function State(all: set<Descriptor>): Snoops<Descriptor>
    reads all
  {
    Snoops(map d | d in all && d.snooping != null :: d.snooping as Descriptor, set d | d in all && d.permitted)
  }

  twostate lemma SamePermissions(all: set<Descriptor>)
    requires forall d <- all :: d.permitted == old(d.permitted)
    ensures State(all).permitted == old(State(all)).permitted
  {
  }

  lemma LinksShow(all: set<Descriptor>)
    ensures forall d <- all :: d in State(all).links <==> d.snooping != null
    ensures forall d <- State(all).links :: d in all && State(all).links[d] == d.snooping
  {
  }

  lemma LinksAre(all: set<Descriptor>, links: map<Descriptor, Descriptor>)
    requires links.Keys <= all
    requires forall d <- all :: d.snooping == if d in links then links[d] else null
    ensures State(all).links == links
  {
  }

  lemma TheSnooper(all: set<Descriptor>, d: Descriptor)
    requires Mutual(all) && d in all
    ensures Snoopers(State(all).links, d) == if d.snoopBy == null then {} else {d.snoopBy as Descriptor}
  {
  }
}
