/** Ownership of the exporter's database connection.

    Connections are numbered in the order they are opened and every close is
    counted, so that leaks and double closes show.  Pings, connects and scrapes
    succeed or fail as the tick says. */
module CollectLoop {
  import opened Basics

  type Conn = nat

  /** What one sampling tick meets; `envDsn` is the environment value read in that cycle. */
  datatype Tick = Tick(envDsn: string, pingOk: bool, connectOk: bool, scrapeOk: bool)

  datatype Event = Sample(tick: Tick) | Cleanup

  /** A cycle that finds no data source name returns no connection, even when it was given one. */
  predicate Forgets(dsn: string, tick: Tick, conn: Option<Conn>) {
    !Named(dsn, tick) && conn.Some?
  }

  /** A data source name is configured, or the environment has one by now. */
  predicate Named(dsn: string, tick: Tick) {
    dsn != "" || tick.envDsn != ""
  }

  /** Connections are only ever added, and closes only ever counted up. */
  ghost predicate Extends(before: seq<nat>, after: seq<nat>) {
    |before| <= |after| && forall c :: 0 <= c < |before| ==> before[c] <= after[c]
  }

  lemma ExtendsMore(a: seq<nat>, b: seq<nat>, c: seq<nat>)
    requires Extends(a, b) && Extends(b, c)
    ensures Extends(a, c)
  {}

  class Exporter {
    var closes: seq<nat>  // how often each connection ever opened has been closed
    var up: bool
    const dsn: string

    /** The most connections, forgotten ones aside, that have ever been open together. */
    ghost var peak: nat

    constructor (dsn: string)
      ensures closes == [] && this.dsn == dsn && !up && peak == 0
    {
      this.dsn := dsn;
      closes, up, peak := [], false, 0;
    }

    ghost function Open(): set<Conn>
      reads this
    {
      set c | 0 <= c < |closes| && closes[c] == 0
    }

    /** No connection was closed twice; `conn` and the forgotten ones are exactly those still open. */
    ghost predicate Owns(conn: Option<Conn>, forgotten: set<Conn>)
      reads this
    {
      && (forall c :: 0 <= c < |closes| ==> closes[c] <= 1)
      && Open() == forgotten + (if conn.Some? then {conn.value} else {})
      && (conn.Some? ==> conn.value !in forgotten)
    }

    /** Opens a connection, whatever else is open. */
    method Dial(ok: bool, ghost forgotten: set<Conn>) returns (conn: Option<Conn>)
      modifies `closes, `peak
      ensures conn == if ok then Some(|old(closes)|) else None
      ensures closes == if ok then old(closes) + [0] else old(closes)
      ensures peak >= |Open() - forgotten| && peak >= old(peak)
      ensures peak == |Open() - forgotten| || peak == old(peak)
    {
      if ok {
        conn := Some(|closes|);
        closes := closes + [0];
      } else {
        conn := None;
      }
      if |Open() - forgotten| > peak { peak := |Open() - forgotten|; }
    }

    /** When nothing is owned, the new connection is the only one that is. */
    method Connect(ok: bool, ghost forgotten: set<Conn>) returns (conn: Option<Conn>)
      modifies `closes, `peak
      ensures conn.Some? <==> ok
      ensures old(Owns(None, forgotten)) ==> Owns(conn, forgotten) && (peak == old(peak) || peak <= 1)
      ensures Extends(old(closes), closes)
    {
      conn := Dial(ok, forgotten);
      if old(Owns(None, forgotten)) {
        assert Open() == if ok then old(Open()) + {conn.value} else old(Open());
        AtMostOneOwned(conn, forgotten);
      }
    }

    lemma OwnedCanBeForgotten(conn: Conn, forgotten: set<Conn>)
      requires Owns(Some(conn), forgotten)
      ensures Owns(None, forgotten + {conn})
    {}

    /** What is owned and not forgotten is open, and nothing else: at most one connection. */
    lemma AtMostOneOwned(conn: Option<Conn>, forgotten: set<Conn>)
      requires Owns(conn, forgotten)
      ensures |Open() - forgotten| <= 1
    {
      assert Open() - forgotten == if conn.Some? then {conn.value} else {};
    }

    method Close(conn: Conn)
      requires conn < |closes|
      modifies `closes
      ensures closes == old(closes)[conn := old(closes)[conn] + 1]
    {
      closes := closes[conn := closes[conn] + 1];
    }

    method CloseConn(conn: Option<Conn>, ghost forgotten: set<Conn>)
      requires Owns(conn, forgotten)
      modifies `closes
      ensures Owns(None, forgotten)
      ensures Extends(old(closes), closes)
    {
      if conn.None? { return; }
      assert conn.value in Open();
      Close(conn.value);
    }

    /** Verifies the connection or replaces it. */
    method EnsureConnection(conn: Option<Conn>, tick: Tick, ghost forgotten: set<Conn>) returns (live: Option<Conn>)
      requires Owns(conn, forgotten)
      modifies this
      ensures !Forgets(dsn, tick, conn) ==> Owns(live, forgotten)
      ensures Forgets(dsn, tick, conn) ==> live == None && Owns(None, forgotten + {conn.value})
      ensures live.Some? <==> Named(dsn, tick) && ((conn.Some? && tick.pingOk) || tick.connectOk)
      ensures Named(dsn, tick) && conn.Some? && tick.pingOk ==> live == conn
      ensures up == if Named(dsn, tick) && live.None? then false else old(up)
      ensures peak == old(peak) || peak <= 1
      ensures Extends(old(closes), closes)
    {
      var effective := dsn;
      if effective == "" {
        effective := tick.envDsn;
        if effective == "" {
          if conn.Some? { OwnedCanBeForgotten(conn.value, forgotten); }
          return None;
        }
      }
      if conn.Some? {
        if tick.pingOk { return conn; }
        CloseConn(conn, forgotten);
      }
      ghost var closed := closes;
      live := Connect(tick.connectOk, forgotten);
      ExtendsMore(old(closes), closed, closes);
      if live.None? { up := false; }
    }

    /** One cycle; afterwards `up` is set exactly when a live connection is returned. */
    method CollectOnce(conn: Option<Conn>, tick: Tick, ghost forgotten: set<Conn>) returns (live: Option<Conn>)
      requires Owns(conn, forgotten)
      modifies this
      ensures Owns(live, forgotten) <==> !Forgets(dsn, tick, conn)
      ensures Forgets(dsn, tick, conn) ==> live == None && Owns(None, forgotten + {conn.value})
      ensures up <==> live.Some?
      ensures live.Some? <==> Named(dsn, tick) && ((conn.Some? && tick.pingOk) || tick.connectOk) && tick.scrapeOk
      ensures peak == old(peak) || peak <= 1
      ensures Extends(old(closes), closes)
    {
      live := EnsureConnection(conn, tick, forgotten);
      if live.None? {
        up := false;
        return;
      }
      if !tick.scrapeOk {
        up := false;
        assert live.value in Open();
        Close(live.value);
        live := None;
      } else {
        up := true;
      }
    }

    /** One event of the loop; a connection that the cycle drops becomes one of the forgotten ones. */
    method OnEvent(event: Event, conn: Option<Conn>, ghost forgotten: set<Conn>)
      returns (live: Option<Conn>, ghost dropped: set<Conn>)
      requires Owns(conn, forgotten)
      modifies this
      ensures Owns(live, dropped) && Extends(old(closes), closes)
      ensures live.Some? == LiveAfter(dsn, conn.Some?, event)
      ensures |dropped| == |forgotten| + if DropsOn(dsn, conn.Some?, event) then 1 else 0
      ensures event.Sample? ==> (up <==> live.Some?)
      ensures peak == old(peak) || peak <= 1
    {
      live, dropped := conn, forgotten;
      match event
      case Cleanup =>
      case Sample(tick) =>
        live := CollectOnce(conn, tick, forgotten);
        if Forgets(dsn, tick, conn) { dropped := forgotten + {conn.value}; }
    }

    /** The loop, from the connection it is given until its context ends.  Forgotten connections
        aside, there is never more than one open, not even inside a cycle.  At the
        end every connection it ever had is closed exactly once, except those
        that a cycle without a data source name forgot. */
    method Run(conn: Option<Conn>, events: seq<Event>) returns (ghost forgotten: set<Conn>)
      requires Owns(conn, {})
      modifies this
      ensures Owns(None, forgotten)
      ensures |forgotten| == Drops(dsn, conn.Some?, events, |events|)
      ensures (forall c :: 0 <= c < |closes| ==> closes[c] == 1) <==>
              forall i :: 0 <= i < |events| ==> !DropsAt(dsn, conn.Some?, events, i)
      ensures peak == old(peak) || peak <= 1
      ensures Extends(old(closes), closes)
    {
      var current;
      current, forgotten := RunEvents(conn, events);
      ghost var before := closes;
      CloseConn(current, forgotten);
      ExtendsMore(old(closes), before, closes);
      NoDropsExactly(dsn, conn.Some?, events, |events|);
      AllClosedExactly(forgotten);
    }

    method RunEvents(conn: Option<Conn>, events: seq<Event>)
      returns (current: Option<Conn>, ghost forgotten: set<Conn>)
      requires Owns(conn, {})
      modifies this
      ensures Owns(current, forgotten) && Extends(old(closes), closes)
      ensures |forgotten| == Drops(dsn, conn.Some?, events, |events|)
      ensures current.Some? == LiveBefore(dsn, conn.Some?, events, |events|)
      ensures events != [] && events[|events| - 1].Sample? ==> (up <==> current.Some?)
      ensures peak == old(peak) || peak <= 1
    {
      current, forgotten := conn, {};
      for i := 0 to |events|
        invariant Owns(current, forgotten) && Extends(old(closes), closes)
        invariant i > 0 && events[i - 1].Sample? ==> (up <==> current.Some?)
        invariant current.Some? == LiveBefore(dsn, conn.Some?, events, i)
        invariant |forgotten| == Drops(dsn, conn.Some?, events, i)
        invariant peak == old(peak) || peak <= 1
      {
        ghost var before := closes;
        current, forgotten := OnEvent(events[i], current, forgotten);
        ExtendsMore(old(closes), before, closes);
      }
    }

    lemma AllClosedExactly(forgotten: set<Conn>)
      requires Owns(None, forgotten)
      ensures (forall c :: 0 <= c < |closes| ==> closes[c] == 1) <==> forgotten == {}
    {
      if forgotten == {} {
        forall c | 0 <= c < |closes| ensures closes[c] == 1 { assert c !in Open(); }
      } else {
        SomeElement(forgotten);
        var c :| c in forgotten;
        assert c in Open();
      }
    }
  }

  /** Whether the loop holds a connection after an event. */
  function LiveAfter(dsn: string, live: bool, event: Event): bool {
    match event
    case Cleanup => live
    case Sample(tick) => Named(dsn, tick) && tick.scrapeOk && ((live && tick.pingOk) || tick.connectOk)
  }

  /** The event is a cycle that holds a connection and finds no data source name. */
  predicate DropsOn(dsn: string, live: bool, event: Event) {
    event.Sample? && !Named(dsn, event.tick) && live
  }

  /** Whether the loop holds a connection before event `i`. */
  function LiveBefore(dsn: string, given: bool, events: seq<Event>, i: nat): bool
    requires i <= |events|
  {
    if i == 0 then given else LiveAfter(dsn, LiveBefore(dsn, given, events, i - 1), events[i - 1])
  }

  predicate DropsAt(dsn: string, given: bool, events: seq<Event>, i: nat)
    requires i < |events|
  {
    DropsOn(dsn, LiveBefore(dsn, given, events, i), events[i])
  }

  /** How many of the first `i` events do. */
  function Drops(dsn: string, given: bool, events: seq<Event>, i: nat): nat
    requires i <= |events|
  {
    if i == 0 then 0 else Drops(dsn, given, events, i - 1) + if DropsAt(dsn, given, events, i - 1) then 1 else 0
  }

  lemma {:induction false} NoDropsExactly(dsn: string, given: bool, events: seq<Event>, i: nat)
    requires i <= |events|
    ensures Drops(dsn, given, events, i) == 0 <==> forall j :: 0 <= j < i ==> !DropsAt(dsn, given, events, j)
  {
    if i > 0 { NoDropsExactly(dsn, given, events, i - 1); }
  }

  /** Nothing is dropped when the data source name stays set once a cycle has seen it. */
  lemma SetNameDropsNothing(dsn: string, given: bool, events: seq<Event>, i: nat)
    requires EnvStaysSet(dsn, events) && (dsn == "" ==> !given) && i < |events|
    ensures !DropsAt(dsn, given, events, i)
  {
    if LiveBefore(dsn, given, events, i) { LiveHasName(dsn, given, events, i); }
  }

  lemma {:induction false} LiveHasName(dsn: string, given: bool, events: seq<Event>, i: nat)
    requires i <= |events| && (dsn == "" ==> !given) && LiveBefore(dsn, given, events, i)
    ensures dsn != "" || exists j :: 0 <= j < i && events[j].Sample? && events[j].tick.envDsn != ""
  {
    if dsn == "" && i > 0 && events[i - 1] == Cleanup {
      LiveHasName(dsn, given, events, i - 1);
    }
  }

  /** A name that is set for one cycle and gone in the next leaves a connection open for good. */
  lemma NameGoneLeaks()
    ensures var events := [Sample(Tick("dsn", true, true, true)), Sample(Tick("", true, true, true))];
            DropsAt("", false, events, 1)
  {
    var events := [Sample(Tick("dsn", true, true, true)), Sample(Tick("", true, true, true))];
    assert LiveBefore("", false, events, 1);
  }

  /** Once a cycle sees a data source name, so does every later one. */
  ghost predicate EnvStaysSet(dsn: string, events: seq<Event>) {
    dsn != "" ||
    forall i, j :: 0 <= i < j < |events| && events[i].Sample? && events[j].Sample? && events[i].tick.envDsn != "" ==>
      events[j].tick.envDsn != ""
  }
}
