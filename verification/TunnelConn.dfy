/**
 * The life of a Tunnel's connection: the methods that install and close it, and every interleaving of
 * concurrent Connect calls with Close.
 */
module TunnelConn {
  import opened Bytes

  class NetConn {
    var open: bool

    constructor ()
      ensures open
    {
      open := true;
    }

    method Close()
      modifies this
      ensures !open
    {
      open := false;
    }
  }

  class Tunnel {
    var conn: NetConn?
    var closed: bool

    constructor ()
      ensures conn == null && !closed
    {
      conn := null;
      closed := false;
    }

    /** Installs c and closes the connection it replaces, unless the tunnel is closed. */
    method SetConn(c: NetConn) returns (ok: bool)
      requires c != conn
      modifies this`conn, conn
      ensures ok == !closed
      ensures ok ==> conn == c && (old(conn) != null ==> !old(conn).open)
      ensures !ok ==> conn == old(conn) && (conn != null ==> conn.open == old(conn.open))
      ensures c.open == old(c.open)
    {
      if closed {
        return false;
      }
      if conn != null {
        conn.Close();
      }
      conn := c;
      return true;
    }

    /** The end of Connect: a connection the tunnel refuses is closed. */
    method FinishConnect(c: NetConn) returns (ok: bool)
      requires c != conn
      modifies this`conn, conn, c
      ensures ok == !closed
      ensures ok ==> conn == c && c.open == old(c.open) && (old(conn) != null ==> !old(conn).open)
      ensures !ok ==> !c.open && conn == old(conn) && (conn != null ==> conn.open == old(conn.open))
    {
      ok := SetConn(c);
      if !ok {
        c.Close();
      }
    }

    method Close()
      modifies this`closed, conn
      ensures closed
      ensures !old(closed) && conn != null ==> !conn.open
      ensures old(closed) && conn != null ==> conn.open == old(conn.open)
    {
      if closed {
        return;
      }
      closed := true;
      if conn != null {
        conn.Close();
      }
    }
  }

  // ----- Concurrent use -----

  /** Where a Connect call stands with the connection it dialed. */
  datatype Stage =
    | Handshaking  // dialed, tunnel request not yet answered
    | Ready        // about to call setConn
    | Refused      // setConn returned false; about to close the connection

  /** Connections are named by the order in which they are dialed. The mutex makes the bodies of
      setConn and Close single steps. */
  datatype Life = Life(
    dialed: nat,
    open: set<nat>,
    calls: map<nat, Stage>,   // the Connect calls in flight, by connection
    conn: Option<nat>,
    closed: bool)

  datatype Step =
    | Dial
    | HandshakeFails(c: nat)
    | HandshakeDone(c: nat)
    | CallSetConn(c: nat)
    | CloseRefused(c: nat)
    | CallClose
    | SessionCloses    // runSession closes the connection it uses

  predicate Enabled(l: Life, s: Step) {
    match s
    case Dial => true
    case HandshakeFails(c) => c in l.calls && l.calls[c] == Handshaking
    case HandshakeDone(c) => c in l.calls && l.calls[c] == Handshaking
    case CallSetConn(c) => c in l.calls && l.calls[c] == Ready
    case CloseRefused(c) => c in l.calls && l.calls[c] == Refused
    case CallClose => true
    case SessionCloses => l.conn.Some?
  }

  function CloseConn(open: set<nat>, c: Option<nat>): set<nat> {
    if c.Some? then open - {c.value} else open
  }

  function Apply(l: Life, s: Step): Life
    requires Enabled(l, s)
  {
    match s
    case Dial =>
      l.(dialed := l.dialed + 1, open := l.open + {l.dialed}, calls := l.calls[l.dialed := Handshaking])
    case HandshakeFails(c) => l.(open := l.open - {c}, calls := l.calls - {c})
    case HandshakeDone(c) => l.(calls := l.calls[c := Ready])
    case CallSetConn(c) =>
      if l.closed then l.(calls := l.calls[c := Refused])
      else l.(open := CloseConn(l.open, l.conn), conn := Some(c), calls := l.calls - {c})
    case CloseRefused(c) => l.(open := l.open - {c}, calls := l.calls - {c})
    case CallClose =>
      if l.closed then l else l.(closed := true, open := CloseConn(l.open, l.conn))
    case SessionCloses => l.(open := CloseConn(l.open, l.conn))
  }

  const START := Life(0, {}, map[], None, false)

  ghost predicate Run(trace: seq<Life>, steps: seq<Step>) {
    && |trace| == |steps| + 1 && trace[0] == START
    && forall i | 0 <= i < |steps| :: Enabled(trace[i], steps[i]) && trace[i + 1] == Apply(trace[i], steps[i])
  }

  function Installed(l: Life): set<nat> {
    if l.conn.Some? then {l.conn.value} else {}
  }

  ghost predicate Inv(l: Life) {
    && l.open <= l.calls.Keys + Installed(l)
    && l.calls.Keys <= l.open
    && l.calls.Keys !! Installed(l)
    && (forall c <- l.calls.Keys + Installed(l) :: c < l.dialed)
    && (l.closed ==> l.open <= l.calls.Keys)
  }

  lemma StepKeepsInv(l: Life, s: Step)
    requires Inv(l) && Enabled(l, s)
    ensures Inv(Apply(l, s))
  {
  }

  lemma {:induction false} RunKeepsInv(trace: seq<Life>, steps: seq<Step>, i: nat)
    requires Run(trace, steps) && i < |trace|
    ensures Inv(trace[i])
  {
    if i > 0 {
      RunKeepsInv(trace, steps, i - 1);
      StepKeepsInv(trace[i - 1], steps[i - 1]);
    }
  }

  /** No connection leaks: what is open is installed or belongs to a Connect still in flight; a closed
      tunnel has no open connection of its own; and with no call in flight none is open at all. */
  lemma NoLeak(trace: seq<Life>, steps: seq<Step>, i: nat)
    requires Run(trace, steps) && i < |trace|
    ensures var l := trace[i];
            && l.open <= l.calls.Keys + Installed(l)
            && |l.open| <= |l.calls| + 1
            && (l.closed ==> l.open == l.calls.Keys)
            && (l.closed && l.calls == map[] ==> l.open == {})
  {
    RunKeepsInv(trace, steps, i);
    var l := trace[i];
    assert |l.calls.Keys + Installed(l)| == |l.calls.Keys| + |Installed(l)|;
    Smaller(l.open, l.calls.Keys + Installed(l));
  }

  lemma {:induction false} Smaller(a: set<nat>, b: set<nat>)
    requires a <= b
    ensures |a| <= |b|
  {
    assert b == a + (b - a);
  }

  /** Once the tunnel is closed it stays closed and installs no other connection, and Connect calls
      that were in flight can only end by closing theirs. */
  lemma {:induction false} ClosedForGood(trace: seq<Life>, steps: seq<Step>, i: nat, j: nat)
    requires Run(trace, steps) && i <= j < |trace| && trace[i].closed
    ensures trace[j].closed && trace[j].conn == trace[i].conn
    ensures trace[i].conn.Some? ==> trace[i].conn.value !in trace[j].open
    decreases j
  {
    RunKeepsInv(trace, steps, j);
    if i < j {
      ClosedForGood(trace, steps, i, j - 1);
    }
  }

  /** A step that may close or replace an installed connection. */
  predicate Disturbs(s: Step) {
    s.CallClose? || s.SessionCloses? || s.CallSetConn?
  }

  /** A connection installed in an open tunnel stays installed and open until the tunnel is closed, the
      session closes it or another one is installed. */
  lemma {:induction false} InstalledStaysOpen(trace: seq<Life>, steps: seq<Step>, i: nat, j: nat, c: nat)
    requires Run(trace, steps) && i < j < |trace|
    requires steps[i] == CallSetConn(c) && !trace[i].closed
    requires forall k | i < k < j :: !Disturbs(steps[k])
    ensures trace[j].conn == Some(c) && c in trace[j].open && c !in trace[j].calls
    decreases j
  {
    RunKeepsInv(trace, steps, j - 1);
    assert trace[j] == Apply(trace[j - 1], steps[j - 1]);
    if i < j - 1 {
      InstalledStaysOpen(trace, steps, i, j - 1, c);
    }
  }

  /** An undisturbed Connect installs an open connection. */
  lemma ConnectSucceeds()
    ensures var steps := [Dial, HandshakeDone(0), CallSetConn(0)];
            exists trace: seq<Life> :: Run(trace, steps) && trace[3] == Life(1, {0}, map[], Some(0), false)
  {
    var l1 := Apply(START, Dial);
    var l2 := Apply(l1, HandshakeDone(0));
    var l3 := Apply(l2, CallSetConn(0));
    assert l3.calls == map[] && l3.open == {0};
    var trace, steps := [START, l1, l2, l3], [Dial, HandshakeDone(0), CallSetConn(0)];
    assert Run(trace, steps) && trace[3] == l3;
  }
}
