/** Sequence-numbered broadcasting with a bounded replay buffer (api/websocket.py). */
module Websocket {
  import opened Wrappers

  datatype Envelope = Envelope(sequence: int, entityVersion: int, channel: string, eventType: string, payload: string)

  function After(buffer: seq<Envelope>, cursor: int): seq<Envelope> {
    if buffer == [] then []
    else (if buffer[0].sequence > cursor then [buffer[0]] else []) + After(buffer[1..], cursor)
  }

  /** The events after a cursor: [] when there is nothing to replay, None when a snapshot is required. */
  function ReplayEvents(counter: int, buffer: seq<Envelope>, cursor: int): Option<seq<Envelope>> {
    if buffer == [] then (if cursor == counter then Some([]) else None)
    else if cursor == counter then Some([])
    else if cursor < buffer[0].sequence - 1 then None
    else Some(After(buffer, cursor))
  }

  // ---- The full log, of which the buffer keeps the end ----

  /** Envelope i of a log is number i + 1. */
  ghost predicate Numbered(log: seq<Envelope>) {
    forall i | 0 <= i < |log| :: log[i].sequence == i + 1
  }

  ghost function Retained(log: seq<Envelope>, max: int): seq<Envelope> {
    if max <= 0 then [] else if |log| <= max then log else log[|log| - max..]
  }

  lemma {:induction false} AfterAll(buffer: seq<Envelope>, cursor: int)
    requires forall i | 0 <= i < |buffer| :: buffer[i].sequence > cursor
    ensures After(buffer, cursor) == buffer
    decreases |buffer|
  {
    if buffer != [] {
      AfterAll(buffer[1..], cursor);
      assert buffer == [buffer[0]] + buffer[1..];
    }
  }

  lemma {:induction false} AfterIsSuffix(buffer: seq<Envelope>, first: int, cursor: int)
    requires forall i | 0 <= i < |buffer| :: buffer[i].sequence == first + i
    requires first - 1 <= cursor
    ensures After(buffer, cursor) == if cursor - first + 1 <= |buffer| then buffer[cursor - first + 1..] else []
    decreases |buffer|
  {
    if buffer != [] {
      var tail := buffer[1..];
      if cursor < first {
        AfterAll(buffer, cursor);
      } else {
        AfterIsSuffix(tail, first + 1, cursor);
      }
    }
  }

  /** For a cursor that a client of this log can hold, the answer is exactly the log after the cursor, and
      None exactly when some of that has been dropped. A negative cursor always asks for a snapshot; a
      cursor from the future is called up to date as soon as anything is buffered. */
  lemma ReplayRefinesLog(log: seq<Envelope>, max: int, cursor: int)
    requires Numbered(log)
    ensures var kept := Retained(log, max);
            var answer := ReplayEvents(|log|, kept, cursor);
            && (0 <= cursor <= |log| ==> answer == if |log| - cursor <= |kept| then Some(log[cursor..]) else None)
            && (cursor < 0 ==> answer == None)
            && (cursor > |log| ==> answer == if kept == [] then None else Some([]))
  {
    var kept := Retained(log, max);
    assert log[|log|..] == [];
    if kept != [] && cursor != |log| && cursor >= kept[0].sequence - 1 {
      AfterIsSuffix(kept, kept[0].sequence, cursor);
      if cursor < |log| {
        assert kept[cursor - kept[0].sequence + 1..] == log[cursor..];
      }
    }
  }

  /** A client that reconnects catches up without a snapshot exactly when it missed no more than the
      buffer holds, and what it then has is the whole log. */
  lemma ReconnectingClientCatchesUp(seen: seq<Envelope>, log: seq<Envelope>, max: int)
    requires Numbered(log) && seen <= log
    ensures var answer := ReplayEvents(|log|, Retained(log, max), |seen|);
            && (answer.Some? <==> |log| - |seen| <= if max < 0 then 0 else max)
            && (answer.Some? ==> seen + answer.value == log)
  {
    ReplayRefinesLog(log, max, |seen|);
  }

  /** A gateway that starts over numbers from 1 again, so a client of its predecessor has seen none of the
      events of the new log, whatever its cursor. It is told to fetch a snapshot, or is sent the whole log,
      exactly when the buffer has dropped an event after its cursor, or, if its cursor is ahead of the new
      log, when nothing is buffered at all. In every other case it loses events without being told. */
  lemma RestartIsNoticedIff(log: seq<Envelope>, max: int, cursor: int)
    requires Numbered(log) && cursor >= 1
    ensures var kept := Retained(log, max);
            var answer := ReplayEvents(|log|, kept, cursor);
            answer == None || answer.value == log <==>
            if cursor <= |log| then |log| - cursor > |kept| else kept == []
  {
    ReplayRefinesLog(log, max, cursor);
  }

  class WebSocketGateway {
    const maxReplayBuffer: int
    var sequenceCounter: int
    var replayBuffer: seq<Envelope>
    /** Everything broadcast so far. */
    ghost var log: seq<Envelope>

    ghost predicate Valid()
      reads this
    {
      && Numbered(log)
      && sequenceCounter == |log|
      && replayBuffer == Retained(log, maxReplayBuffer)
    }

    constructor (maxReplayBuffer: int)
      ensures Valid() && log == [] && this.maxReplayBuffer == maxReplayBuffer
    {
      this.maxReplayBuffer := maxReplayBuffer;
      sequenceCounter := 0;
      replayBuffer := [];
      log := [];
    }

    method Broadcast(channel: string, eventType: string, payload: string, entityVersion: int)
      returns (envelope: Envelope)
      requires Valid()
      modifies this
      ensures Valid()
      ensures envelope == Envelope(|old(log)| + 1, entityVersion, channel, eventType, payload)
      ensures log == old(log) + [envelope]
    {
      sequenceCounter := sequenceCounter + 1;
      envelope := Envelope(sequenceCounter, entityVersion, channel, eventType, payload);
      replayBuffer := replayBuffer + [envelope];
      if |replayBuffer| > maxReplayBuffer {
        replayBuffer := replayBuffer[1..];
      }
      log := log + [envelope];
    }

    method GetReplayEvents(lastConfirmedSequence: int) returns (answer: Option<seq<Envelope>>)
      requires Valid()
      ensures 0 <= lastConfirmedSequence <= |log| ==>
                answer == if |log| - lastConfirmedSequence <= |replayBuffer| then Some(log[lastConfirmedSequence..])
                          else None
      ensures lastConfirmedSequence < 0 ==> answer == None
      ensures lastConfirmedSequence > |log| ==> answer == if replayBuffer == [] then None else Some([])
    {
      ReplayRefinesLog(log, maxReplayBuffer, lastConfirmedSequence);
      answer := ReplayEvents(sequenceCounter, replayBuffer, lastConfirmedSequence);
    }
  }
}
