/** Sessions, their packet identifiers, and the store that keeps them by client id. A writer is known by
    the number of its connection. */
module SessionStores {
  import opened Wrappers
  import opened PacketParser

  // ---------------------------------------------------------------- values

  type ConnId = nat

  datatype SessionState = SessionState(clean: bool, writer: Option<ConnId>, nextId: nat)

  function CreateSession(sessions: map<Str, SessionState>, client: Str, clean: bool,
      conn: ConnId): map<Str, SessionState> {
    if clean || client !in sessions then sessions[client := SessionState(clean, Some(conn), 1)]
    else sessions[client := sessions[client].(writer := Some(conn))]
  }

  function RemoveSession(sessions: map<Str, SessionState>, client: Str): map<Str, SessionState> {
    if client !in sessions then sessions
    else if sessions[client].clean then sessions - {client}
    else sessions[client := sessions[client].(writer := None)]
  }

  // ---------------------------------------------------------------- packet identifiers

  function NextId(id: nat): nat {
    id % 65535 + 1
  }

  function IdAfter(start: nat, calls: nat): nat {
    if calls == 0 then start else NextId(IdAfter(start, calls - 1))
  }

  lemma NextRemainder(m: nat)
    ensures NextId(m % 65535 + 1) == (m + 1) % 65535 + 1
  {
  }

  lemma {:induction false} IdAfterClosed(start: nat, calls: nat)
    requires 1 <= start <= 65535
    ensures IdAfter(start, calls) == (start - 1 + calls) % 65535 + 1
  {
    hide NextId;
    if calls > 0 {
      IdAfterClosed(start, calls - 1);
      NextRemainder(start - 1 + (calls - 1));
    }
  }

  /** The ids a session hands out repeat exactly every 65535 calls, and stay in 1..65535. */
  lemma IdsRepeatExactly(start: nat, i: nat, j: nat)
    requires 1 <= start <= 65535 && i <= j
    ensures 1 <= IdAfter(start, i) <= 65535
    ensures IdAfter(start, i) == IdAfter(start, j) <==> (j - i) % 65535 == 0
  {
    hide IdAfter;
    var a, d := start - 1 + i, j - i;
    IdAfterClosed(start, i);
    IdAfterClosed(start, j);
    assert start - 1 + j == a + d;
    SameRemainder(a, d);
  }

  lemma SameRemainder(a: nat, d: nat)
    ensures a % 65535 == (a + d) % 65535 <==> d % 65535 == 0
  {
  }

  // ---------------------------------------------------------------- the code

  class Session {
    var cleanSession: bool
    var writer: Option<ConnId>
    var nextPacketId: nat

    constructor (cleanSession: bool, writer: ConnId)
      ensures Shows(SessionState(cleanSession, Some(writer), 1))
    {
      this.cleanSession, this.writer, nextPacketId := cleanSession, Some(writer), 1;
    }

    ghost predicate Shows(st: SessionState)
      reads this
    {
      cleanSession == st.clean && nextPacketId == st.nextId && writer == st.writer
    }

    method GetPacketId() returns (pid: nat)
      modifies this`nextPacketId
      ensures pid == old(nextPacketId) && nextPacketId == NextId(old(nextPacketId))
    {
      pid := nextPacketId;
      nextPacketId := nextPacketId % 65535 + 1;
    }
  }

  class SessionStore {
    var sessions: map<Str, Session>
    ghost var view: map<Str, SessionState>
    ghost var members: set<Session>

    ghost predicate Valid()
      reads this, members
    {
      && sessions.Keys == view.Keys
      && (forall c {:trigger sessions[c]} :: c in sessions ==> sessions[c] in members && sessions[c].Shows(view[c]))
      && (forall a, b {:trigger sessions[a], sessions[b]} ::
            a in sessions && b in sessions && sessions[a] == sessions[b] ==> a == b)
    }

    constructor ()
      ensures Valid() && view == map[] && members == {}
    {
      sessions, view, members := map[], map[], {};
    }

    /** Every session is an old one or freshly made. */
    twostate predicate OnlyNewSessions()
      reads this
    {
      fresh(members - old(members))
    }

    method Create(client: Str, clean: bool, writer: ConnId)
      requires Valid()
      modifies this, members
      ensures Valid() && OnlyNewSessions()
      ensures view == CreateSession(old(view), client, clean, writer)
    {
      if clean || client !in sessions {
        var session := new Session(clean, writer);
        sessions := sessions[client := session];
        members := members + {session};
      } else {
        sessions[client].writer := Some(writer);
      }
      view := CreateSession(view, client, clean, writer);
    }

    method Remove(client: Str)
      requires Valid()
      modifies this, members
      ensures Valid() && OnlyNewSessions()
      ensures view == RemoveSession(old(view), client)
    {
      if client in sessions {
        var session := sessions[client];
        if session.cleanSession {
          sessions := sessions - {client};
        } else {
          session.writer := None;
        }
      }
      view := RemoveSession(view, client);
    }

    method GetWriter(client: Str) returns (writer: Option<ConnId>)
      requires Valid()
      ensures writer == if client in view then view[client].writer else None
    {
      writer := if client in sessions then sessions[client].writer else None;
    }

    /** `get(client).get_packet_id()`: takes the session's next packet identifier. */
    method TakePacketId(client: Str) returns (pid: nat)
      requires Valid() && client in view
      modifies this`view, members
      ensures Valid() && pid == old(view)[client].nextId
      ensures view == old(view)[client := old(view)[client].(nextId := NextId(pid))]
    {
      pid := sessions[client].GetPacketId();
      view := view[client := view[client].(nextId := NextId(pid))];
    }
  }
}
