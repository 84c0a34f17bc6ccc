/** The sending application of tcp-large-transfer.cc: a fixed buffer of letters written again and
    again, piecemeal, whenever the socket has room, until 2000000 bytes are accepted. */
module LargeTransfer {

  const TOTAL_TX_BYTES: nat := 2000000
  const WRITE_SIZE: nat := 1040

  type Byte = b: nat | b < 256

  function Min(a: nat, b: nat): nat {
    if a < b then a else b
  }

  /** The stream to be sent: the letters a to z over and over, without regard to the buffer. */
  function Letter(k: nat): Byte {
    97 + k % 26
  }

  function Stream(n: nat): (s: seq<Byte>)
    ensures |s| == n
  {
    seq(n, (k: nat) => Letter(k))
  }

  lemma StreamSpells(n: nat, k: nat)
    requires k < n
    ensures Stream(n)[k] as int == "abcdefghijklmnopqrstuvwxyz"[k % 26] as int
  {
  }

  // ---------------------------------------------------------------------------------------
  // The socket
  // ---------------------------------------------------------------------------------------

  /** What the socket answers to one call, when `answers` are the answers that remain: to a
      question for its free space, and to a write of `size` bytes. With no answer left it has
      neither space nor success to report. */
  function SpaceFrom(answers: seq<int>): nat {
    if answers == [] || answers[0] < 0 then 0 else answers[0]
  }

  function SentFrom(answers: seq<int>, size: nat): int {
    if answers == [] || answers[0] < 0 then -1 else Min(answers[0], size)
  }

  function Rest(answers: seq<int>): seq<int> {
    if answers == [] then [] else answers[1..]
  }

  /** A socket whose behaviour is an arbitrary finite list of answers. It records the bytes it
      accepts and how many it had accepted at each close. */
  class Socket {
    var answers: seq<int>
    var accepted: seq<Byte>
    var closedAt: seq<nat>

    constructor ()
      ensures answers == [] && accepted == [] && closedAt == []
    {
      answers, accepted, closedAt := [], [], [];
    }

    method GetTxAvailable() returns (space: nat)
      modifies this`answers
      ensures space == SpaceFrom(old(answers)) && answers == Rest(old(answers))
    {
      space := SpaceFrom(answers);
      answers := Rest(answers);
    }

    /** Accepts a prefix of `size` bytes from `offset` on, or nothing, which is a failure. */
    method Send(data: array<Byte>, offset: nat, size: nat) returns (amount: int)
      requires offset + size <= data.Length
      modifies this`answers, this`accepted
      ensures amount == SentFrom(old(answers), size) && answers == Rest(old(answers))
      ensures accepted == old(accepted) + if amount > 0 then data[offset..offset + amount] else []
    {
      amount := SentFrom(answers, size);
      answers := Rest(answers);
      if amount > 0 {
        accepted := accepted + data[offset..offset + amount];
      }
    }

    method Close()
      modifies this`closedAt
      ensures closedAt == old(closedAt) + [|accepted|]
    {
      closedAt := closedAt + [|accepted|];
    }
  }

  // ---------------------------------------------------------------------------------------
  // How far one call gets
  // ---------------------------------------------------------------------------------------

  /** The bytes offered in one write: to the end of the buffer, of the transfer, or of the space. */
  function Offer(current: nat, space: nat): nat
    requires current <= TOTAL_TX_BYTES
  {
    Min(Min(WRITE_SIZE - current % WRITE_SIZE, TOTAL_TX_BYTES - current), space)
  }

  /** The bytes accepted when the loop ends, given those accepted when it begins. */
  function Reached(current: nat, answers: seq<int>): (r: nat)
    requires current <= TOTAL_TX_BYTES
    ensures current <= r <= TOTAL_TX_BYTES
    decreases |answers|
  {
    if current == TOTAL_TX_BYTES || SpaceFrom(answers) == 0 then current
    else
      var second := Rest(answers);
      var amount := SentFrom(Rest(second), Offer(current, SpaceFrom(second)));
      if amount < 0 then current
      else Reached(current + amount, Rest(Rest(second)))
  }

  class Application {
    const data: array<Byte>
    var currentTxBytes: nat

    ghost predicate Valid()
      reads this, data
    {
      && data.Length == WRITE_SIZE
      && (forall i :: 0 <= i < WRITE_SIZE ==> data[i] == Letter(i))
      && currentTxBytes <= TOTAL_TX_BYTES
    }

    /** What has been accepted is exactly the beginning of the stream. */
    ghost predicate Agrees(socket: Socket)
      reads this, socket
    {
      socket.accepted == Stream(currentTxBytes)
    }

    constructor ()
      ensures Valid() && fresh(data) && currentTxBytes == 0
    {
      currentTxBytes := 0;
      data := new Byte[WRITE_SIZE];
      new;
      for i := 0 to WRITE_SIZE
        invariant data.Length == WRITE_SIZE && currentTxBytes == 0
        invariant forall k :: 0 <= k < i ==> data[k] == Letter(k)
      {
        data[i] := 97 + i % 26;
      }
    }

    method WriteUntilBufferFull(socket: Socket)
      requires Valid() && Agrees(socket)
      modifies this`currentTxBytes, socket
      ensures Valid() && Agrees(socket)
      ensures currentTxBytes == Reached(old(currentTxBytes), old(socket.answers))
      ensures socket.closedAt
              == old(socket.closedAt) + if currentTxBytes == TOTAL_TX_BYTES then [TOTAL_TX_BYTES] else []
    {
      hide Letter, Stream, SpaceFrom, SentFrom, Rest;
      while currentTxBytes < TOTAL_TX_BYTES
        invariant Valid() && Agrees(socket)
        invariant Reached(currentTxBytes, socket.answers) == Reached(old(currentTxBytes), old(socket.answers))
        invariant socket.closedAt == old(socket.closedAt)
        decreases |socket.answers|
      {
        AnswersRunOut(socket.answers);
        var space := socket.GetTxAvailable();
        if space == 0 {
          break;
        }
        var left := TOTAL_TX_BYTES - currentTxBytes;
        var dataOffset := currentTxBytes % WRITE_SIZE;
        var toWrite := WRITE_SIZE - dataOffset;
        toWrite := Min(toWrite, left);
        var available := socket.GetTxAvailable();
        toWrite := Min(toWrite, available);
        SentWithin(socket.answers, toWrite);
        var amountSent := socket.Send(data, dataOffset, toWrite);
        if amountSent < 0 {
          return;
        }
        StreamGrows(data[..], currentTxBytes, amountSent);
        assert data[dataOffset..dataOffset + amountSent] == data[..][dataOffset..dataOffset + amountSent];
        currentTxBytes := currentTxBytes + amountSent;
      }
      if currentTxBytes >= TOTAL_TX_BYTES {
        socket.Close();
      }
    }

    /** Connecting and registering the callback are the socket's affair; the free space asked for
        here is passed on and never used. */
    method StartFlow(socket: Socket)
      requires Valid() && Agrees(socket)
      modifies this`currentTxBytes, socket
      ensures Valid() && Agrees(socket)
      ensures currentTxBytes == Reached(old(currentTxBytes), Rest(old(socket.answers)))
      ensures socket.closedAt
              == old(socket.closedAt) + if currentTxBytes == TOTAL_TX_BYTES then [TOTAL_TX_BYTES] else []
    {
      var txSpace := socket.GetTxAvailable();
      WriteUntilBufferFull(socket);
    }
  }

  lemma AnswersRunOut(answers: seq<int>)
    ensures SpaceFrom(answers) > 0 ==> |Rest(answers)| < |answers|
    ensures |Rest(Rest(Rest(answers)))| <= |Rest(answers)|
  {
  }

  lemma SentWithin(answers: seq<int>, size: nat)
    ensures SentFrom(answers, size) <= size
  {
  }

  lemma OfferBounds(current: nat, space: nat)
    requires current <= TOTAL_TX_BYTES
    ensures Offer(current, space) <= space && current + Offer(current, space) <= TOTAL_TX_BYTES
    ensures current < TOTAL_TX_BYTES && space > 0 ==> Offer(current, space) > 0
  {
  }

  /** Nothing larger than the offer stays within the buffer, the transfer and the space at once. */
  lemma OfferIsLargest(current: nat, space: nat, n: nat)
    requires current <= 2000000
    ensures n <= Offer(current, space) <==> current % 1040 + n <= 1040 && current + n <= 2000000 && n <= space
  {
  }

  lemma NothingMore(current: nat, answers: seq<int>)
    requires current <= TOTAL_TX_BYTES
    requires current == TOTAL_TX_BYTES || answers == [0]
    ensures Reached(current, answers) == current
  {
  }

  /** What each answer does to an unfinished transfer: no space ends the call, a failed write ends
      it, and any other write, of no bytes too, counts what was taken of the offer and goes on. */
  lemma OneTurn(current: nat, space: int, available: int, amount: int, later: seq<int>)
    requires current < 2000000
    ensures space <= 0 ==> Reached(current, [space] + later) == current
    ensures space > 0 && amount < 0 ==> Reached(current, [space, available, amount] + later) == current
    ensures space > 0 && amount >= 0 ==>
              var size := Offer(current, if available > 0 then available else 0);
              var taken := if amount < size then amount else size;
              && current + taken <= 2000000
              && Reached(current, [space, available, amount] + later) == Reached(current + taken, later)
  {
    hide Offer;
    OfferBounds(current, if available > 0 then available else 0);
    var answers := [space, available, amount] + later;
    assert answers[1..] == [available, amount] + later && answers[1..][1..] == [amount] + later;
    assert answers[1..][1..][1..] == later;
  }

  /** The buffer holds a whole number of alphabets, so writing on from its beginning after its end
      continues the stream. */
  lemma StreamGrows(data: seq<Byte>, current: nat, amount: nat)
    requires |data| == WRITE_SIZE && forall i :: 0 <= i < WRITE_SIZE ==> data[i] == Letter(i)
    requires current % WRITE_SIZE + amount <= WRITE_SIZE
    ensures Stream(current) + data[current % WRITE_SIZE..current % WRITE_SIZE + amount] == Stream(current + amount)
  {
    hide Letter;
    var times, offset := current / WRITE_SIZE, current % WRITE_SIZE;
    var whole := Stream(current) + data[offset..offset + amount];
    assert current == WRITE_SIZE * times + offset;
    forall k | 0 <= k < current + amount
      ensures whole[k] == Stream(current + amount)[k]
    {
      if k >= current {
        SameLetter(times, k - WRITE_SIZE * times);
      }
    }
  }

  lemma SameLetter(times: nat, k: nat)
    ensures Letter(WRITE_SIZE * times + k) == Letter(k)
  {
    assert WRITE_SIZE * times + k == 26 * (40 * times) + k;
  }

  // ---------------------------------------------------------------------------------------
  // Whole transfers
  // ---------------------------------------------------------------------------------------

  /** The bytes accepted after the start and any number of callbacks, the socket giving
      `calls[i]` as its answers in the i-th of them. */
  function Total(calls: seq<seq<int>>): (r: nat)
    ensures r <= TOTAL_TX_BYTES
  {
    if calls == [] then 0
    else
      var last := calls[|calls| - 1];
      Reached(Total(calls[..|calls| - 1]), if |calls| == 1 then Rest(last) else last)
  }

  /** How often the socket has been closed. */
  function Closes(calls: seq<seq<int>>): nat {
    if calls == [] then 0
    else Closes(calls[..|calls| - 1]) + if Total(calls) == TOTAL_TX_BYTES then 1 else 0
  }

  /** For any behaviour of the socket: what it accepted is a prefix of the stream, of the length
      the answers allow, and every close came at exactly the full length. */
  method Transfer(calls: seq<seq<int>>) returns (socket: Socket)
    ensures socket.accepted == Stream(Total(calls))
    ensures socket.closedAt == seq(Closes(calls), _ => TOTAL_TX_BYTES)
  {
    hide Reached, Stream;
    var application := new Application();
    socket := new Socket();
    NothingSent();
    for i := 0 to |calls|
      invariant fresh(socket) && fresh(application) && fresh(application.data)
      invariant application.Valid() && application.Agrees(socket)
      invariant application.currentTxBytes == Total(calls[..i])
      invariant socket.closedAt == seq(Closes(calls[..i]), _ => TOTAL_TX_BYTES)
    {
      assert calls[..i + 1][..i] == calls[..i];
      socket.answers := calls[i];
      if i == 0 {
        application.StartFlow(socket);
      } else {
        application.WriteUntilBufferFull(socket);
      }
    }
    assert calls[..|calls|] == calls;
  }

  lemma NothingSent()
    ensures Stream(0) == []
  {
  }

  /** Once everything is accepted, every further callback closes the socket again. */
  lemma {:induction false} ClosedAgain(before: seq<seq<int>>, after: seq<seq<int>>)
    requires Total(before) == TOTAL_TX_BYTES
    ensures Total(before + after) == TOTAL_TX_BYTES
    ensures Closes(before + after) == Closes(before) + |after|
  {
    if after == [] {
      assert before + after == before;
    } else {
      var a := after[..|after| - 1];
      ClosedAgain(before, a);
      assert (before + after)[..|before + after| - 1] == before + a;
    }
  }

  /** The socket is closed once for the call that completes the transfer and once for every call
      after it. */
  lemma {:induction false} NeverClosedEarly(calls: seq<seq<int>>)
    ensures Closes(calls) > 0 <==> Total(calls) == TOTAL_TX_BYTES
    ensures forall i :: 0 <= i < |calls| && Total(calls[..i]) < TOTAL_TX_BYTES
                        && Total(calls[..i + 1]) == TOTAL_TX_BYTES ==>
              Closes(calls) == |calls| - i
  {
    hide Reached;
    if calls != [] {
      var a := calls[..|calls| - 1];
      NeverClosedEarly(a);
    }
    forall i | 0 <= i < |calls| && Total(calls[..i]) < TOTAL_TX_BYTES && Total(calls[..i + 1]) == TOTAL_TX_BYTES
      ensures Closes(calls) == |calls| - i
    {
      assert calls[..i + 1] + calls[i + 1..] == calls;
      ClosedAgain(calls[..i + 1], calls[i + 1..]);
      assert calls[..i + 1][..i] == calls[..i];
      NeverClosedEarly(calls[..i]);
    }
  }

  // ---------------------------------------------------------------------------------------
  // A socket with a send buffer
  // ---------------------------------------------------------------------------------------

  /** The answers of a socket with `space` free bytes that accepts whatever fits. */
  function Honest(current: nat, space: nat): seq<int>
    requires current <= TOTAL_TX_BYTES
    decreases space
  {
    if current == TOTAL_TX_BYTES then []
    else if space == 0 then [0]
    else
      var size := Offer(current, space);
      [space, space, size] + Honest(current + size, space - size)
  }

  /** Such a socket's buffer is filled to the last byte, or the transfer is complete. */
  lemma {:induction false} FillsTheBuffer(current: nat, space: nat)
    requires current <= TOTAL_TX_BYTES
    ensures Reached(current, Honest(current, space)) == Min(current + space, TOTAL_TX_BYTES)
    decreases space
  {
    hide Reached, Offer;
    if current == TOTAL_TX_BYTES || space == 0 {
      NothingMore(current, Honest(current, space));
    } else {
      var size := Offer(current, space);
      OfferBounds(current, space);
      OneTurn(current, space, space, size, Honest(current + size, space - size));
      FillsTheBuffer(current + size, space - size);
    }
  }

  function Sum(spaces: seq<nat>): nat {
    if spaces == [] then 0 else Sum(spaces[..|spaces| - 1]) + spaces[|spaces| - 1]
  }

  /** The calls made when `spaces[i]` bytes are free in the i-th of them. */
  function HonestCalls(spaces: seq<nat>): (calls: seq<seq<int>>)
    ensures |calls| == |spaces|
  {
    if spaces == [] then []
    else
      var before, space := HonestCalls(spaces[..|spaces| - 1]), spaces[|spaces| - 1];
      before + [(if before == [] then [space] else []) + Honest(Total(before), space)]
  }

  /** With such a socket the transfer has got exactly as far as the space offered, and is closed
      exactly when that is the whole. */
  lemma {:induction false} CompletesWithTheSpace(spaces: seq<nat>)
    ensures Total(HonestCalls(spaces)) == Min(Sum(spaces), TOTAL_TX_BYTES)
    ensures Closes(HonestCalls(spaces)) > 0 <==> Sum(spaces) >= TOTAL_TX_BYTES
  {
    hide Reached;
    var calls := HonestCalls(spaces);
    if spaces != [] {
      var a, space := spaces[..|spaces| - 1], spaces[|spaces| - 1];
      var before := HonestCalls(a);
      CompletesWithTheSpace(a);
      FillsTheBuffer(Total(before), space);
      assert calls[..|calls| - 1] == before;
      if before == [] {
        assert Rest([space] + Honest(0, space)) == Honest(0, space);
      } else {
        assert [] + Honest(Total(before), space) == Honest(Total(before), space);
      }
    }
    NeverClosedEarly(calls);
  }
}
