/** One-to-many subscriptions: a send reaches every subscribed channel once, whatever subscribes and
    unsubscribes meanwhile (event/feed.go). */
module Feed {

  /** The first select case receives removal requests; the channels follow it. */
  const REMOVE_SUB: nat := 0
  const FIRST_SUB_SEND_CASE := 1

  /** What happens to a channel during one send: it gets the value, it is removed before getting it,
      or it is removed after getting it. */
  datatype Event = Sent(ch: nat) | Dropped(ch: nat) | Retired(ch: nat)

  /** The channels still waiting for the value and those that have it. */
  datatype Round = Round(active: multiset<nat>, done: multiset<nat>)

  ghost predicate Allowed(r: Round, e: Event) {
    if e.Retired? then e.ch in r.done else e.ch in r.active
  }

  ghost function Apply(r: Round, e: Event): Round {
    match e
    case Sent(ch) => Round(r.active - multiset{ch}, r.done + multiset{ch})
    case Dropped(ch) => Round(r.active - multiset{ch}, r.done)
    case Retired(ch) => Round(r.active, r.done - multiset{ch})
  }

  /** The round the events lead to. */
  ghost function Play(r: Round, events: seq<Event>): Round {
    if events == [] then r else Apply(Play(r, events[..|events| - 1]), events[|events| - 1])
  }

  /** Each event is allowed when it happens. */
  ghost predicate Legal(r: Round, events: seq<Event>) {
    events == [] || (Legal(r, events[..|events| - 1]) && Allowed(Play(r, events[..|events| - 1]), events[|events| - 1]))
  }

  lemma PlayOn(r: Round, events: seq<Event>, e: Event)
    requires Legal(r, events) && Allowed(Play(r, events), e)
    ensures Legal(r, events + [e]) && Play(r, events + [e]) == Apply(Play(r, events), e)
    ensures Sends(events + [e]) == Sends(events) + if e.Sent? then multiset{e.ch} else multiset{}
  {
    assert (events + [e])[..|events|] == events;
  }

  /** All that were removed during a send. */
  ghost function Removals(events: seq<Event>): multiset<nat> {
    Drops(events) + Retirements(events)
  }

  lemma RemoveOn(events: seq<Event>, e: Event)
    ensures Removals(events + [e]) == Removals(events) + if e.Sent? then multiset{} else multiset{e.ch}
  {
    assert (events + [e])[..|events|] == events;
  }

  /** What others do meanwhile: subscriptions, removals straight from the inbox, and removals that
      have to wait. */
  datatype Traffic = Traffic(joined: multiset<nat>, quit: multiset<nat>, asked: multiset<nat>)

  ghost function Both(a: Traffic, b: Traffic): Traffic {
    Traffic(a.joined + b.joined, a.quit + b.quit, a.asked + b.asked)
  }

  const QUIET := Traffic(multiset{}, multiset{}, multiset{})

  /** Every removal taken or still waiting was asked for, and the inbox holds what joined and did not
      quit. */
  ghost predicate Balanced(events: seq<Event>, waiting0: multiset<nat>, t: Traffic, waiting: multiset<nat>, inbox: seq<nat>) {
    Removals(events) + waiting == waiting0 + t.asked && multiset(inbox) + t.quit == t.joined
  }

  lemma BalancedOn(events: seq<Event>, waiting0: multiset<nat>, t: Traffic, waiting: multiset<nat>, inbox: seq<nat>,
                   more: Traffic, waiting': multiset<nat>, inbox': seq<nat>)
    requires Balanced(events, waiting0, t, waiting, inbox)
    requires waiting' == waiting + more.asked && multiset(inbox') + more.quit == multiset(inbox) + more.joined
    ensures Balanced(events, waiting0, Both(t, more), waiting', inbox')
  {
    hide Removals;
    Extend(multiset{}, multiset(inbox), t.quit, t.joined, multiset(inbox'), more.quit, more.joined);
    assert waiting0 + (t.asked + more.asked) == waiting0 + t.asked + more.asked;
  }


  lemma BalancedEvent(events: seq<Event>, waiting0: multiset<nat>, t: Traffic, waiting: multiset<nat>, inbox: seq<nat>,
                      e: Event, waiting': multiset<nat>)
    requires Balanced(events, waiting0, t, waiting, inbox)
    requires if e.Sent? then waiting' == waiting else e.ch in waiting && waiting' == waiting - multiset{e.ch}
    ensures Balanced(events + [e], waiting0, t, waiting', inbox)
  {
    hide Removals;
    RemoveOn(events, e);
    if !e.Sent? {
      assert waiting == waiting' + multiset{e.ch};
    }
  }

  /** A channel subscribed once whose removal nobody asked for gets the value exactly once and stays
      subscribed. */
  lemma Undisturbed(start: Round, events: seq<Event>, waiting0: multiset<nat>, t: Traffic, waiting: multiset<nat>, inbox: seq<nat>, ch: nat)
    requires Legal(start, events) && Play(start, events).active == multiset{} && start.done == multiset{}
    requires Balanced(events, waiting0, t, waiting, inbox) && ch !in waiting0 && ch !in t.asked
    ensures Sends(events)[ch] == start.active[ch] == Play(start, events).done[ch]
  {
    Conservation(start, events, ch);
    assert (Removals(events) + waiting)[ch] == (waiting0 + t.asked)[ch] == 0;
    assert Removals(events)[ch] == Drops(events)[ch] + Retirements(events)[ch];
  }

  /** The channels an event of one kind happened to. */
  ghost function Sends(events: seq<Event>): multiset<nat> {
    if events == [] then multiset{}
    else Sends(events[..|events| - 1]) + if events[|events| - 1].Sent? then multiset{events[|events| - 1].ch} else multiset{}
  }

  ghost function Drops(events: seq<Event>): multiset<nat> {
    if events == [] then multiset{}
    else Drops(events[..|events| - 1]) + if events[|events| - 1].Dropped? then multiset{events[|events| - 1].ch} else multiset{}
  }

  ghost function Retirements(events: seq<Event>): multiset<nat> {
    if events == [] then multiset{}
    else Retirements(events[..|events| - 1]) + if events[|events| - 1].Retired? then multiset{events[|events| - 1].ch} else multiset{}
  }

  lemma ApplyCounts(m: Round, e: Event, ch: nat)
    requires Allowed(m, e)
    ensures m.active[ch] == Apply(m, e).active[ch] + if e.ch == ch && !e.Retired? then 1 else 0
    ensures m.done[ch] + (if e.ch == ch && e.Sent? then 1 else 0) == Apply(m, e).done[ch] + if e.ch == ch && e.Retired? then 1 else 0
  {
  }

  lemma EventCounts(events: seq<Event>, ch: nat)
    requires events != []
    ensures var before, e := events[..|events| - 1], events[|events| - 1];
            && Sends(events)[ch] == Sends(before)[ch] + (if e.ch == ch && e.Sent? then 1 else 0)
            && Drops(events)[ch] == Drops(before)[ch] + (if e.ch == ch && e.Dropped? then 1 else 0)
            && Retirements(events)[ch] == Retirements(before)[ch] + (if e.ch == ch && e.Retired? then 1 else 0)
  {
  }

  /** Nothing is lost or sent twice: every channel of the round is still waiting, got the value, or
      was removed before; and those that got it are done or were removed after. */
  lemma {:induction false} Conservation(r: Round, events: seq<Event>, ch: nat)
    requires Legal(r, events)
    ensures r.active[ch] == Play(r, events).active[ch] + Sends(events)[ch] + Drops(events)[ch]
    ensures r.done[ch] + Sends(events)[ch] == Play(r, events).done[ch] + Retirements(events)[ch]
  {
    if events != [] {
      var before, e := events[..|events| - 1], events[|events| - 1];
      Conservation(r, before, ch);
      ApplyCounts(Play(r, before), e, ch);
      EventCounts(events, ch);
    }
  }

  lemma {:induction false} Happened(events: seq<Event>, i: nat)
    requires i < |events|
    ensures match events[i]
            case Sent(ch) => ch in Sends(events)
            case Dropped(ch) => ch in Drops(events)
            case Retired(ch) => ch in Retirements(events)
  {
    if i < |events| - 1 {
      Happened(events[..|events| - 1], i);
    }
  }

  /** A channel in the round once gets the value at most once, and not after its removal. */
  lemma {:induction false} OnceEach(r: Round, events: seq<Event>, i: nat, j: nat)
    requires Legal(r, events) && i < j < |events| && events[i].ch == events[j].ch
    requires r.active[events[i].ch] + r.done[events[i].ch] <= 1
    ensures events[j].Retired? && events[i].Sent?
    decreases |events|
  {
    hide Sends, Drops, Retirements, Play, Apply;
    var before := events[..|events| - 1];
    if j < |events| - 1 {
      OnceEach(r, before, i, j);
    } else {
      Conservation(r, before, events[i].ch);
      Happened(before, i);
    }
  }

  /** After a complete send, a channel subscribed once got the value exactly once unless it was
      removed before getting it; one that is still subscribed certainly got it. */
  lemma Reached(start: Round, events: seq<Event>, ch: nat)
    requires Legal(start, events) && Play(start, events).active == multiset{} && start.active[ch] == 1 && start.done == multiset{}
    ensures Sends(events)[ch] + Drops(events)[ch] == 1
    ensures ch in Play(start, events).done ==> Sends(events)[ch] == 1
  {
    Conservation(start, events, ch);
  }

  /** The index of a channel among the cases. */
  method Find(cases: seq<nat>, ch: nat) returns (index: int)
    ensures -1 <= index < |cases|
    ensures index == -1 <==> ch !in cases
    ensures index >= 0 ==> cases[index] == ch && ch !in cases[..index]
  {
    for i := 0 to |cases|
      invariant ch !in cases[..i]
    {
      if cases[i] == ch {
        return i;
      }
    }
    index := -1;
  }

  function Delete(cases: seq<nat>, index: nat): seq<nat>
    requires index < |cases|
  {
    cases[..index] + cases[index + 1..]
  }

  /** Swaps a case with the last of the first n, so that the first n - 1 no longer hold it. */
  function Deactivate(cases: seq<nat>, n: nat, index: nat): seq<nat>
    requires index < n <= |cases|
  {
    cases[index := cases[n - 1]][n - 1 := cases[index]]
  }

  /** The round as the cases show it: the first n are active, the rest are done. */
  ghost function RoundOf(cases: seq<nat>, n: nat): Round
    requires 1 <= n <= |cases|
  {
    Round(multiset(cases[1..n]), multiset(cases[n..]))
  }

  lemma DeactivatedActive(cases: seq<nat>, n: nat, index: nat)
    requires 1 <= index < n <= |cases|
    ensures multiset(Deactivate(cases, n, index)[1..n - 1]) == multiset(cases[1..n]) - multiset{cases[index]}
    ensures cases[index] in multiset(cases[1..n])
  {
    var front := cases[1..n - 1];
    assert cases[1..n] == front + [cases[n - 1]];
    if index == n - 1 {
      assert Deactivate(cases, n, index)[1..n - 1] == front;
    } else {
      assert Deactivate(cases, n, index)[1..n - 1] == front[index - 1 := cases[n - 1]];
      assert front[index - 1] == cases[index];
    }
  }

  lemma Deactivated(cases: seq<nat>, n: nat, index: nat)
    requires 1 <= index < n <= |cases|
    ensures Allowed(RoundOf(cases, n), Sent(cases[index]))
    ensures RoundOf(Deactivate(cases, n, index), n - 1) == Apply(RoundOf(cases, n), Sent(cases[index]))
  {
    DeactivatedActive(cases, n, index);
    assert Deactivate(cases, n, index)[n - 1..] == [cases[index]] + cases[n..];
  }

  lemma DeactivatedAll(cases: seq<nat>, n: nat, index: nat)
    requires 1 <= index < n <= |cases|
    ensures multiset(Deactivate(cases, n, index)[1..]) == multiset(cases[1..])
  {
    var s := cases[1..];
    assert Deactivate(cases, n, index)[1..] == s[index - 1 := s[n - 2]][n - 2 := s[index - 1]];
  }

  lemma DeletedActive(cases: seq<nat>, n: nat, index: nat)
    requires 1 <= index < n <= |cases|
    ensures Allowed(RoundOf(cases, n), Dropped(cases[index]))
    ensures RoundOf(Delete(cases, index), n - 1) == Apply(RoundOf(cases, n), Dropped(cases[index]))
  {
    var cs := Delete(cases, index);
    assert cases[1..n] == cases[1..index] + [cases[index]] + cases[index + 1..n];
    assert cs[1..n - 1] == cases[1..index] + cases[index + 1..n];
    assert cs[n - 1..] == cases[n..];
  }

  lemma DeletedDone(cases: seq<nat>, n: nat, index: nat)
    requires 1 <= n <= index < |cases|
    ensures Allowed(RoundOf(cases, n), Retired(cases[index]))
    ensures RoundOf(Delete(cases, index), n) == Apply(RoundOf(cases, n), Retired(cases[index]))
  {
    var cs := Delete(cases, index);
    assert cases[n..] == cases[n..index] + [cases[index]] + cases[index + 1..];
    assert cs[n..] == cases[n..index] + cases[index + 1..];
    assert cs[1..n] == cases[1..n];
  }

  /** The first entry of a channel is an active one if there is any. */
  lemma FirstFound(cases: seq<nat>, n: nat, index: nat)
    requires 1 <= n <= |cases| && 1 <= index < |cases| && cases[index] !in cases[..index]
    ensures index < n <==> cases[index] in RoundOf(cases, n).active
  {
    if index < n {
      assert cases[1..n][index - 1] == cases[index];
    } else {
      assert forall ch :: ch in cases[1..n] ==> ch in cases[..index];
    }
  }

  ghost predicate CasesOk(cases: seq<nat>, waiting: multiset<nat>) {
    && |cases| >= 1 && cases[0] == REMOVE_SUB && REMOVE_SUB !in cases[1..]
    && waiting <= multiset(cases[1..])
  }

  /** Whoever waits is found, and taking it out leaves the others waiting among the cases. */
  lemma Deleted(cases: seq<nat>, index: nat, waiting: multiset<nat>)
    requires CasesOk(cases, waiting) && index < |cases| && cases[index] in waiting
    ensures index >= 1 && CasesOk(Delete(cases, index), waiting - multiset{cases[index]})
    ensures multiset(Delete(cases, index)[1..]) == multiset(cases[1..]) - multiset{cases[index]}
  {
    Listed(cases, waiting, cases[index]);
    assert cases[1..] == cases[1..index] + [cases[index]] + cases[index + 1..];
    assert Delete(cases, index)[1..] == cases[1..index] + cases[index + 1..];
  }

  lemma Listed(cases: seq<nat>, waiting: multiset<nat>, ch: nat)
    requires CasesOk(cases, waiting) && ch in waiting
    ensures ch in cases && ch != REMOVE_SUB
  {
    assert ch in multiset(cases[1..]);
  }

  lemma Members(cases: seq<nat>, cases': seq<nat>)
    requires |cases| == |cases'| >= 1 && multiset(cases'[1..]) == multiset(cases[1..])
    ensures REMOVE_SUB in cases'[1..] ==> REMOVE_SUB in cases[1..]
  {
    assert REMOVE_SUB in cases'[1..] ==> REMOVE_SUB in multiset(cases'[1..]);
  }

  /** Midway through a send: the cases show the round the events have led to. */
  ghost predicate Sending(start: Round, events: seq<Event>, cases: seq<nat>, n: nat, nsent: nat) {
    && 1 <= n <= |cases| && Legal(start, events) && Play(start, events) == RoundOf(cases, n) && nsent == |Sends(events)|
  }

  lemma Bounds(start: Round, events: seq<Event>, cases: seq<nat>, n: nat, nsent: nat)
    requires Sending(start, events, cases, n, nsent)
    ensures 1 <= n <= |cases|
  {
  }

  lemma Start(cases: seq<nat>, inbox: seq<nat>, waiting: multiset<nat>)
    requires CasesOk(cases, waiting) && REMOVE_SUB !in inbox
    ensures CasesOk(cases + inbox, waiting)
    ensures Sending(Round(multiset(cases[1..]) + multiset(inbox), multiset{}), [], cases + inbox, |cases + inbox|, 0)
  {
    assert (cases + inbox)[1..] == (cases + inbox)[1..|cases + inbox|] == cases[1..] + inbox;
  }

  lemma Next(start: Round, events: seq<Event>, cases: seq<nat>, n: nat, nsent: nat, e: Event, cases': seq<nat>, n': nat)
    requires Sending(start, events, cases, n, nsent) && Allowed(RoundOf(cases, n), e)
    requires 1 <= n' <= |cases'| && RoundOf(cases', n') == Apply(RoundOf(cases, n), e)
    ensures Sending(start, events + [e], cases', n', if e.Sent? then nsent + 1 else nsent)
  {
    hide RoundOf, Allowed, Apply;
    PlayOn(start, events, e);
  }

  lemma Finished(start: Round, events: seq<Event>, cases: seq<nat>, nsent: nat)
    requires Sending(start, events, cases, 1, nsent)
    ensures Legal(start, events) && nsent == |Sends(events)| && Play(start, events) == Round(multiset{}, multiset(cases[1..]))
  {
  }

  class Feed {
    var sendCases: seq<nat>
    var inbox: seq<nat>
    /** Channels whose unsubscribers found the inbox empty of them and wait for a send to take the
        removal, or for the send lock. */
    var waiting: multiset<nat>

    /** Everyone waiting for removal is among the send cases. */
    ghost predicate Valid()
      reads this
    {
      CasesOk(sendCases, waiting) && REMOVE_SUB !in inbox
    }

    /** One entry for each subscription that is not yet removed. */
    ghost function Subs(): multiset<nat>
      reads this
      requires Valid()
    {
      multiset(sendCases[1..]) + multiset(inbox)
    }

    constructor ()
      ensures Valid() && Subs() == multiset{} && waiting == multiset{}
    {
      sendCases, inbox, waiting := [REMOVE_SUB], [], multiset{};
    }

    method Subscribe(ch: nat)
      requires Valid() && ch != REMOVE_SUB
      modifies this`inbox
      ensures Valid() && Subs() == old(Subs()) + multiset{ch} && inbox == old(inbox) + [ch]
    {
      inbox := inbox + [ch];
    }

    /** The first part of a removal, once for each subscription: straight from the inbox, or waiting. */
    method Unsubscribe(ch: nat)
      requires Valid() && Subs()[ch] > waiting[ch]
      modifies this`inbox, this`waiting
      ensures Valid()
      ensures Subs() - waiting == old(Subs() - waiting) - multiset{ch}
      ensures if ch in old(inbox) then waiting == old(waiting) && multiset(inbox) == multiset(old(inbox)) - multiset{ch}
              else waiting == old(waiting) + multiset{ch} && inbox == old(inbox)
    {
      var index := Find(inbox, ch);
      if index != -1 {
        assert inbox == inbox[..index] + [ch] + inbox[index + 1..];
        inbox := Delete(inbox, index);
      } else {
        waiting := waiting + multiset{ch};
      }
    }

    /** The second part while no send holds the lock. */
    method RemoveIdle(ch: nat)
      requires Valid() && ch in waiting
      modifies this`sendCases, this`waiting
      ensures Valid() && waiting == old(waiting) - multiset{ch} && Subs() == old(Subs()) - multiset{ch}
    {
      Listed(sendCases, waiting, ch);
      var index := Find(sendCases, ch);
      Deleted(sendCases, index, waiting);
      sendCases := Delete(sendCases, index);
      waiting := waiting - multiset{ch};
    }

    /** Other goroutines subscribe and ask for removals while a send is under way. */
    method Interfere() returns (ghost t: Traffic)
      requires Valid()
      modifies this`inbox, this`waiting
      ensures Valid()
      ensures waiting == old(waiting) + t.asked && multiset(inbox) + t.quit == multiset(old(inbox)) + t.joined
    {
      hide CasesOk;
      var k: nat := *;
      t := QUIET;
      while k > 0
        invariant Valid()
        invariant waiting == old(waiting) + t.asked && multiset(inbox) + t.quit == multiset(old(inbox)) + t.joined
      {
        ghost var was := inbox;
        ghost var more := InterfereOnce();
        Extend(multiset(old(inbox)), multiset(was), t.quit, t.joined, multiset(inbox), more.quit, more.joined);
        t := Both(t, more);
        k := k - 1;
      }
    }

    /** One subscription or removal request, or none. */
    method InterfereOnce() returns (ghost t: Traffic)
      requires Valid()
      modifies this`inbox, this`waiting
      ensures Valid()
      ensures waiting == old(waiting) + t.asked && multiset(inbox) + t.quit == multiset(old(inbox)) + t.joined
    {
      t := QUIET;
      var subscribes: bool, ch: nat := *, *;
      if subscribes {
        if ch != REMOVE_SUB {
          Subscribe(ch);
          t := QUIET.(joined := multiset{ch});
        }
      } else if multiset(sendCases[1..])[ch] + multiset(inbox)[ch] > waiting[ch] {
        Unsubscribe(ch);
        t := if ch in old(inbox) then QUIET.(quit := multiset{ch}) else QUIET.(asked := multiset{ch});
        assert ch in old(inbox) ==> ch in multiset(old(inbox));
      }
    }

    /** Takes one waiting removal; the channel is always found. Returns the new number of active
        cases and what happened. */
    method TakeRemoval(n: nat) returns (n': nat, ghost e: Event)
      requires Valid() && 1 <= n <= |sendCases| && waiting != multiset{}
      modifies this`sendCases, this`waiting
      ensures Valid() && |sendCases| == |old(sendCases)| - 1 && 1 <= n' <= n && n' <= |sendCases| && !e.Sent?
      ensures e.ch in old(waiting) && waiting == old(waiting) - multiset{e.ch}
      ensures e.Dropped? <==> e.ch in RoundOf(old(sendCases), n).active
      ensures Allowed(RoundOf(old(sendCases), n), e) && RoundOf(sendCases, n') == Apply(RoundOf(old(sendCases), n), e)
    {
      hide RoundOf, Allowed, Apply, CasesOk;
      var ch :| ch in waiting;
      Listed(sendCases, waiting, ch);
      var index := Find(sendCases, ch);
      Deleted(sendCases, index, waiting);
      FirstFound(sendCases, n, index);
      if index < n {
        DeletedActive(sendCases, n, index);
        n', e := n - 1, Dropped(ch);
      } else {
        DeletedDone(sendCases, n, index);
        n', e := n, Retired(ch);
      }
      sendCases := Delete(sendCases, index);
      waiting := waiting - multiset{ch};
    }

    /** Sends to one active channel. */
    method Deliver(n: nat, index: nat) returns (ghost e: Event)
      requires Valid() && 1 <= index < n <= |sendCases|
      modifies this`sendCases
      ensures Valid() && |sendCases| == |old(sendCases)| && e == Sent(old(sendCases[index]))
      ensures Allowed(RoundOf(old(sendCases), n), e) && RoundOf(sendCases, n - 1) == Apply(RoundOf(old(sendCases), n), e)
    {
      hide RoundOf, Allowed, Apply;
      Deactivated(sendCases, n, index);
      DeactivatedAll(sendCases, n, index);
      e := Sent(sendCases[index]);
      Members(sendCases, Deactivate(sendCases, n, index));
      sendCases := Deactivate(sendCases, n, index);
    }

    /** Tries every active channel once without blocking. */
    method TryAll(n: nat, nsent: nat, ghost start: Round, ghost events: seq<Event>, ghost waiting0: multiset<nat>, ghost t: Traffic)
      returns (n': nat, nsent': nat, ghost events': seq<Event>, ghost t': Traffic)
      requires Valid() && Sending(start, events, sendCases, n, nsent) && Balanced(events, waiting0, t, waiting, inbox)
      modifies this
      ensures Valid() && Sending(start, events', sendCases, n', nsent') && Balanced(events', waiting0, t', waiting, inbox)
      ensures n' <= n && |sendCases| == |old(sendCases)|
    {
      hide Sending, CasesOk, RoundOf, Allowed, Apply, Balanced;
      n', nsent', events', t' := n, nsent, events, t;
      var i := FIRST_SUB_SEND_CASE;
      Bounds(start, events, sendCases, n, nsent);
      while i < n'
        invariant Valid() && 1 <= i <= n' <= n && |sendCases| == |old(sendCases)|
        invariant Sending(start, events', sendCases, n', nsent') && Balanced(events', waiting0, t', waiting, inbox)
        decreases n' - i
      {
        t' := Disturbed(events', waiting0, t');
        Bounds(start, events', sendCases, n', nsent');
        var ready: bool := *;
        if ready {
          ghost var cases := sendCases;
          ghost var e := Deliver(n', i);
          Next(start, events', cases, n', nsent', e, sendCases, n' - 1);
          BalancedEvent(events', waiting0, t', waiting, inbox, e, waiting);
          n', nsent', events' := n' - 1, nsent' + 1, events' + [e];
        } else {
          i := i + 1;
        }
      }
    }

    /** Others act, and the accounts still balance. */
    method Disturbed(ghost events: seq<Event>, ghost waiting0: multiset<nat>, ghost t: Traffic) returns (ghost t': Traffic)
      requires Valid() && Balanced(events, waiting0, t, waiting, inbox)
      modifies this`inbox, this`waiting
      ensures Valid() && Balanced(events, waiting0, t', waiting, inbox)
    {
      hide CasesOk, Balanced;
      ghost var more := Interfere();
      BalancedOn(events, waiting0, t, old(waiting), old(inbox), more, waiting, inbox);
      t' := Both(t, more);
    }

    /** Sends to every channel subscribed at the start: each gets the value once, unless its removal
        is taken first. Only removals that were asked for are taken, and what subscribes meanwhile
        stays in the inbox for the next send, unless it is removed from there. */
    method Send() returns (nsent: nat, ghost events: seq<Event>, ghost t: Traffic)
      requires Valid()
      modifies this
      ensures Valid()
      ensures var start := Round(old(Subs()), multiset{});
              && Legal(start, events) && nsent == |Sends(events)|
              && Play(start, events) == Round(multiset{}, multiset(sendCases[1..]))
      ensures Balanced(events, old(waiting), t, waiting, inbox)
    {
      hide Sending, CasesOk, RoundOf, Allowed, Apply, Legal, Play, Sends, Balanced;
      Start(sendCases, inbox, waiting);
      sendCases := sendCases + inbox;
      inbox := [];
      ghost var start := Round(old(Subs()), multiset{});
      var n: nat := |sendCases|;
      nsent, events, t := 0, [], QUIET;
      BalancedStart(waiting);
      while true
        invariant Valid() && Sending(start, events, sendCases, n, nsent) && Balanced(events, old(waiting), t, waiting, inbox)
        decreases n + |sendCases|
      {
        n, nsent, events, t := TryAll(n, nsent, start, events, old(waiting), t);
        Bounds(start, events, sendCases, n, nsent);
        if n == FIRST_SUB_SEND_CASE {
          break;
        }
        t := Disturbed(events, old(waiting), t);
        ghost var cases, before, waited := sendCases, n, waiting;
        ghost var e;
        var chosen: nat :| chosen < n && (chosen == 0 ==> waiting != multiset{});
        if chosen == 0 {
          n, e := TakeRemoval(n);
        } else {
          e := Deliver(n, chosen);
          n := n - 1;
          nsent := nsent + 1;
        }
        Next(start, events, cases, before, if e.Sent? then nsent - 1 else nsent, e, sendCases, n);
        BalancedEvent(events, old(waiting), t, waited, inbox, e, waiting);
        events := events + [e];
      }
      Finished(start, events, sendCases, nsent);
    }
  }

  lemma Extend(a: multiset<nat>, b: multiset<nat>, out: multiset<nat>, in': multiset<nat>, c: multiset<nat>, out': multiset<nat>, in'': multiset<nat>)
    requires b + out == a + in' && c + out' == b + in''
    ensures c + (out + out') == a + (in' + in'')
  {
    forall x ensures (c + (out + out'))[x] == (a + (in' + in''))[x] {
      assert (b + out)[x] == (a + in')[x] && (c + out')[x] == (b + in'')[x];
    }
  }

  lemma BalancedStart(waiting: multiset<nat>)
    ensures Balanced([], waiting, QUIET, waiting, [])
  {
  }
}
