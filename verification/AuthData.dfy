/** The pair of client and connection IDs that every new connection takes one of. */
module AuthData {
  import opened Octets
  import opened Buffers

  const LIMIT: UInt32 := 0xff00_0000

  datatype Ident = Ident(clientID: Bytes, connectionID: UInt32)

  /** What chance supplies in case a new client ID is drawn. */
  datatype Draw = Draw(clientID: Bytes, start: UInt32)

  /** After this identity a new client ID is drawn. */
  predicate Spent(id: Ident) {
    id.connectionID > LIMIT || id.connectionID == 0
  }

  predicate InRange(id: Ident) {
    id.connectionID <= LIMIT + 1
  }

  function Following(id: Ident, draw: Draw): Ident
    requires InRange(id)
  {
    if Spent(id) then Ident(draw.clientID, draw.start % 0x100_0000 + 1)
    else id.(connectionID := id.connectionID + 1)
  }

  /** The identities of successive connections. */
  function Issued(id: Ident, draws: seq<Draw>): (r: seq<Ident>)
    requires InRange(id)
    ensures |r| == |draws|
    ensures forall i | 0 <= i < |r| :: InRange(r[i]) && r[i].connectionID > 0
    decreases |draws|
  {
    if draws == [] then [] else
    var next := Following(id, draws[0]);
    [next] + Issued(next, draws[1..])
  }

  lemma {:induction false} IssuedStep(id: Ident, draws: seq<Draw>, i: nat)
    requires InRange(id) && i < |draws|
    ensures Issued(id, draws)[i] == Following(if i == 0 then id else Issued(id, draws)[i - 1], draws[i])
    decreases i
  {
    if i > 0 {
      IssuedStep(Following(id, draws[0]), draws[1..], i - 1);
    }
  }

  /** Up to a redraw, connections share the client ID and count up, so no two are alike. */
  lemma {:induction false} CountsUp(id: Ident, draws: seq<Draw>, i: nat, j: nat)
    requires InRange(id) && i <= j < |draws|
    requires forall k | i <= k < j :: !Spent(Issued(id, draws)[k])
    ensures var r := Issued(id, draws);
            r[j].clientID == r[i].clientID && r[j].connectionID == r[i].connectionID + (j - i)
    decreases j - i
  {
    if i < j {
      CountsUp(id, draws, i, j - 1);
      IssuedStep(id, draws, j);
    }
  }

  /** A client ID is drawn exactly at the very first connection and after 0xff000001. */
  lemma RedrawIff(id: Ident, draw: Draw)
    requires InRange(id)
    ensures id.connectionID != 0 && id.connectionID != 0xff00_0001 ==>
              Following(id, draw) == Ident(id.clientID, id.connectionID + 1)
    ensures id.connectionID == 0 || id.connectionID == 0xff00_0001 ==>
              Following(id, draw) == Ident(draw.clientID, draw.start % 0x100_0000 + 1)
  {
  }

  /** After a redraw the next one is at least 0xfe000000 connections away. */
  lemma {:induction false} RedrawsFarApart(id: Ident, draws: seq<Draw>, i: nat, j: nat)
    requires InRange(id) && i <= j < |draws| && j - i < 0xfe00_0000
    requires Spent(if i == 0 then id else Issued(id, draws)[i - 1])
    ensures var r := Issued(id, draws);
            && r[j].clientID == draws[i].clientID
            && r[j].connectionID == draws[i].start % 0x100_0000 + 1 + (j - i)
    decreases j - i
  {
    if i == j {
      IssuedStep(id, draws, i);
    } else {
      RedrawsFarApart(id, draws, i, j - 1);
      IssuedStep(id, draws, j);
    }
  }

  class Issuer {
    var clientID: Bytes
    var connectionID: UInt32

    function State(): Ident
      reads this
    {
      Ident(clientID, connectionID)
    }

    constructor ()
      ensures State() == Ident([0, 0, 0, 0], 0)
    {
      clientID, connectionID := [0, 0, 0, 0], 0;
    }

    /** Issues an identity, under the lock. */
    method Next() returns (r: Ident, ghost draw: Draw)
      requires InRange(State())
      modifies this
      ensures InRange(State()) && r == State()
      ensures |draw.clientID| == 4 && r == Following(old(State()), draw)
    {
      var random := RandBytes(4);
      var start: UInt32 := *;
      draw := Draw(random, start);
      if connectionID > LIMIT || connectionID == 0 {
        clientID := random;
        connectionID := start % 0x100_0000;
      }
      connectionID := connectionID + 1;
      r := Ident(clientID, connectionID);
    }
  }
}
