/** The command queue of `ring/ble_ring_v1.py` and `ring/ble_ring_zhw.py`:
    `send_action` puts a command string on a `queue.Queue`, and the
    connection loop drains it, sending each command with "\r\n" appended,
    except the sentinel "disconnect", which closes the connection
    instead. Commands are kept as their UTF-8 bytes. */
module ActionQueue {
  import opened Bytes
  import opened Text

  /** "disconnect". */
  const DisconnectAction: seq<Byte> := [0x64, 0x69, 0x73, 0x63, 0x6F, 0x6E, 0x6E, 0x65, 0x63, 0x74]

  /** What the drain loop does with one queued command. */
  datatype Output =
    /** `await self.client.disconnect()`. */
    | Disconnect
    /** `send(data)`: a GATT write of the command followed by "\r\n". */
    | Write(bytes: seq<Byte>)

  /** `send`'s payload: `bytearray(str + '\r\n', encoding='utf-8')`. */
  function SendPayload(command: seq<Byte>): (p: seq<Byte>)
    ensures |p| == |command| + 2
  {
    command + CrLf
  }

  function Dispatch(action: seq<Byte>): Output {
    if action == DisconnectAction then Disconnect else Write(SendPayload(action))
  }

  /** What draining a queue holding `actions` does, front first. */
  function Drained(actions: seq<seq<Byte>>): seq<Output>
    decreases |actions|
  {
    if actions == [] then [] else [Dispatch(actions[0])] + Drained(actions[1..])
  }

  /** The sent payload ends with "\r\n" and gives the command back when
      that is cut off. */
  lemma SendPayloadRoundTrip(command: seq<Byte>)
    ensures SendPayload(command)[..|command|] == command
    ensures SendPayload(command)[|command|..] == CrLf
  {
  }

  /** Draining is first in, first out: one output per command, the `k`-th
      output for the `k`-th command put, and only the sentinel
      disconnects. */
  lemma {:induction false} DrainedInOrder(actions: seq<seq<Byte>>)
    ensures |Drained(actions)| == |actions|
    ensures forall k :: 0 <= k < |actions| ==> Drained(actions)[k] == Dispatch(actions[k])
    decreases |actions|
  {
    if actions != [] {
      DrainedInOrder(actions[1..]);
      forall k | 0 <= k < |actions|
        ensures Drained(actions)[k] == Dispatch(actions[k])
      {
        if k > 0 {
          assert Drained(actions)[k] == Drained(actions[1..])[k - 1];
          assert actions[1..][k - 1] == actions[k];
        }
      }
    }
  }

  /** Draining two batches one after the other does what draining them
      together does. */
  lemma {:induction false} DrainedConcat(a: seq<seq<Byte>>, b: seq<seq<Byte>>)
    ensures Drained(a + b) == Drained(a) + Drained(b)
    decreases |a|
  {
    if a != [] {
      assert (a + b)[0] == a[0] && (a + b)[1..] == a[1..] + b;
      DrainedConcat(a[1..], b);
    } else {
      assert a + b == b;
    }
  }

  /** The disconnect sentinel is never sent as a command; every other
      command is sent, with "\r\n" appended. */
  lemma DispatchSentinel(action: seq<Byte>)
    ensures Dispatch(action).Disconnect? <==> action == DisconnectAction
    ensures Dispatch(action).Write? ==> Dispatch(action).bytes[..|action|] == action
  {
  }

  /** Taking the front command moves its output from the queue's share to
      the outputs already produced. */
  lemma DrainStep(done: seq<Output>, action: seq<Byte>, rest: seq<seq<Byte>>)
    ensures (done + [Dispatch(action)]) + Drained(rest) == done + Drained([action] + rest)
  {
    assert ([action] + rest)[1..] == rest;
  }

  /** The queue of one ring connection. */
  class CommandQueue {
    /** The commands put and not yet taken, front first. */
    var pending: seq<seq<Byte>>

    constructor ()
      ensures pending == []
    {
      pending := [];
    }

    /** `send_action(action)`. */
    method Put(action: seq<Byte>)
      modifies this
      ensures pending == old(pending) + [action]
    {
      pending := pending + [action];
    }

    /** `while not self.action_queue.empty()`: take every queued command,
        front first, and disconnect or send it. */
    method Drain() returns (outputs: seq<Output>)
      modifies this
      ensures pending == []
      ensures outputs == Drained(old(pending))
    {
      outputs := [];
      while pending != []
        invariant outputs + Drained(pending) == Drained(old(pending))
        decreases |pending|
      {
        var action := pending[0];
        assert pending == [action] + pending[1..];
        DrainStep(outputs, action, pending[1..]);
        pending := pending[1..];
        if action == DisconnectAction {
          outputs := outputs + [Disconnect];
        } else {
          outputs := outputs + [Write(SendPayload(action))];
        }
      }
      assert outputs + [] == outputs;
    }
  }
}
