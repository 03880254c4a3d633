/** The input daemon of adaptors/input.py with its two threads replaced by
    explicit events: the collector's `put` is `Collect`, the grouper's
    `get` returning a character is `OnChar`, and `get` raising
    `queue.Empty` is `OnTimeout`. Timeouts are in milliseconds. */
module Input {
  import opened Text
  import opened Constants

  /** `Queue(maxsize = 256)`. */
  const QueueSize: nat := 256

  /** `buffer_timeout`, 0.005 seconds. */
  const BufferTimeout: nat := 5

  /** A group holds at least one character, and an ESC only in front. */
  predicate WellGrouped(g: string) {
    |g| > 0 && EscOnlyFirst(g)
  }

  predicate EscOnlyFirst(s: string) {
    forall i :: 0 < i < |s| ==> s[i] != ESC
  }

  /** The timeout is one of the values the grouper assigns: 0 with an
      empty buffer, ten times the base right after an ESC, the base once
      a third character (not `M`) has arrived. */
  predicate TimeoutFits(buffer: seq<char>, timeout: nat) {
    && (timeout == 0 || timeout == BufferTimeout || timeout == 10 * BufferTimeout)
    && (buffer == [] ==> timeout == 0)
    && (timeout == 10 * BufferTimeout ==> buffer[0] == ESC)
    && (timeout == BufferTimeout ==> |buffer| >= 3)
  }


  /** Appending a character to the middle part of a split string. */
  lemma ShiftChar(front: string, middle: string, ch: char, back: string)
    ensures front + (middle + [ch]) + back == front + middle + ([ch] + back)
  {
  }

  /** What `read` does: block in `wait`, or return a group. */
  datatype ReadResult = Blocks | Got(group: string)

  class InputDaemon {
    var inputQueue: seq<char>
    var groupQueue: seq<string>
    var inputEvent: bool
    var running: bool
    /** The grouper's locals `buffer`, `timeout` and `grouping`. */
    var buffer: seq<char>
    var timeout: nat
    var grouping: bool
    /** Every character the collector has put, every group `read` has
        returned, and how often the workers were started. */
    ghost var received: seq<char>
    ghost var delivered: seq<string>
    ghost var starts: nat

    /** No character is lost, duplicated or reordered between the
        collector and the reader; ESC only ever starts a group; the event
        is set exactly while groups wait; the timeout is one of the three
        values the grouper assigns, and matches the buffer. */
    ghost predicate Valid()
      reads this
    {
      && |inputQueue| <= QueueSize
      && Concat(delivered + groupQueue) + buffer + inputQueue == received
      && Grouped()
      && starts <= 1
      && (running <==> starts == 1)
    }

    /** The part of `Valid` the grouper keeps on its own: every group is
        well formed, the event is set exactly while groups wait, and the
        timeout matches the buffer. */
    ghost predicate Grouped()
      reads this
    {
      && (forall g :: g in groupQueue ==> WellGrouped(g))
      && (forall g :: g in delivered ==> WellGrouped(g))
      && EscOnlyFirst(buffer)
      && (inputEvent <==> |groupQueue| > 0)
      && TimeoutFits(buffer, timeout)
    }

    /** The characters the grouper has taken from the input queue, in
        order: the delivered groups, the waiting groups, the buffer. */
    ghost function Taken(): string
      reads this
    {
      Concat(delivered + groupQueue) + buffer
    }

    constructor ()
      ensures Valid()
      ensures inputQueue == [] && groupQueue == [] && buffer == []
      ensures !running && !inputEvent && timeout == 0
      ensures received == [] && delivered == []
    {
      inputQueue := [];
      groupQueue := [];
      inputEvent := false;
      running := false;
      buffer := [];
      timeout := 0;
      grouping := true;
      received := [];
      delivered := [];
      starts := 0;
    }

    /** `_start`: set `running` and start both threads. */
    method Start()
      requires Valid() && !running
      modifies this
      ensures Valid() && running && starts == 1
      ensures inputQueue == old(inputQueue) && groupQueue == old(groupQueue) && buffer == old(buffer)
      ensures timeout == old(timeout) && inputEvent == old(inputEvent)
      ensures received == old(received) && delivered == old(delivered)
    {
      running := true;
      starts := starts + 1;
    }

    /** The collector's `input_queue.put(ch)`; `put` blocks while the
        queue is full, so it happens only when there is space. */
    method Collect(ch: char)
      requires Valid() && running && |inputQueue| < QueueSize
      modifies this
      ensures Valid()
      ensures inputQueue == old(inputQueue) + [ch] && received == old(received) + [ch]
      ensures groupQueue == old(groupQueue) && buffer == old(buffer) && timeout == old(timeout)
      ensures inputEvent == old(inputEvent) && delivered == old(delivered) && running == old(running)
    {
      inputQueue := inputQueue + [ch];
      received := received + [ch];
    }

    /** `dump_group`: a non-empty buffer becomes a group, the event is
        set and the timeout drops to 0; an empty buffer changes nothing. */
    method DumpGroup()
      requires Grouped()
      modifies this
      ensures Grouped() && Taken() == old(Taken())
      ensures groupQueue == old(groupQueue) + (if old(buffer) == [] then [] else [old(buffer)])
      ensures buffer == [] && timeout == (if old(buffer) == [] then old(timeout) else 0)
      ensures inputQueue == old(inputQueue) && running == old(running) && grouping == old(grouping)
      ensures received == old(received) && delivered == old(delivered) && starts == old(starts)
    {
      if |buffer| > 0 {
        assert delivered + (groupQueue + [buffer]) == (delivered + groupQueue) + [buffer];
        ConcatAppend(delivered + groupQueue, [buffer]);
        assert Concat([buffer]) == buffer by {
          assert [buffer][..0] == [];
        }
        timeout := 0;
        var group := buffer;
        buffer := [];
        groupQueue := groupQueue + [group];
        inputEvent := true;
      }
    }

    /** One turn of `group_main` in which `get` returns the next character. */
    method OnChar()
      requires Valid() && running && |inputQueue| > 0
      modifies this
      ensures Valid()
      ensures inputQueue == old(inputQueue)[1..]
      ensures var ch := old(inputQueue)[0];
              if ch == ESC then
                && groupQueue == old(groupQueue) + (if old(buffer) == [] then [] else [old(buffer)])
                && buffer == [ESC]
                && timeout == 10 * BufferTimeout
                && grouping
              else
                && groupQueue == old(groupQueue)
                && buffer == old(buffer) + [ch]
                && timeout == (if |old(buffer)| == 2 && ch != 'M' then BufferTimeout else old(timeout))
                && grouping == old(grouping)
      ensures received == old(received) && delivered == old(delivered) && running == old(running)
    {
      var ch := inputQueue[0];
      if ch == ESC {
        OnEsc();
      } else {
        OnOther();
      }
    }

    /** `OnChar` for an ESC: the buffer so far becomes a group, and a new
        one starts with the long timeout. */
    method OnEsc()
      requires Valid() && running && |inputQueue| > 0 && inputQueue[0] == ESC
      modifies this
      ensures Valid()
      ensures inputQueue == old(inputQueue)[1..]
      ensures groupQueue == old(groupQueue) + (if old(buffer) == [] then [] else [old(buffer)])
      ensures buffer == [ESC] && timeout == 10 * BufferTimeout && grouping
      ensures received == old(received) && delivered == old(delivered) && running == old(running)
    {
      DumpGroup();
      timeout := 10 * BufferTimeout;
      grouping := true;
      TakeChar();
    }

    /** `OnChar` for any other character: it joins the buffer, and the
        third one, unless it is the `M` of a mouse report, shortens the
        timeout. */
    method OnOther()
      requires Valid() && running && |inputQueue| > 0 && inputQueue[0] != ESC
      modifies this
      ensures Valid()
      ensures inputQueue == old(inputQueue)[1..]
      ensures groupQueue == old(groupQueue) && buffer == old(buffer) + [old(inputQueue)[0]]
      ensures timeout == (if |old(buffer)| == 2 && old(inputQueue)[0] != 'M' then BufferTimeout else old(timeout))
      ensures grouping == old(grouping)
      ensures received == old(received) && delivered == old(delivered) && running == old(running)
    {
      if |buffer| == 2 && inputQueue[0] != 'M' {
        timeout := BufferTimeout;
      }
      TakeChar();
    }

    /** `buffer += ch` for the character `get` returned. */
    method TakeChar()
      requires |inputQueue| > 0 && Concat(delivered + groupQueue) + buffer + inputQueue == received
      requires EscOnlyFirst(buffer) && (inputQueue[0] == ESC ==> buffer == [])
      modifies this
      ensures inputQueue == old(inputQueue)[1..] && buffer == old(buffer) + [old(inputQueue)[0]]
      ensures Concat(delivered + groupQueue) + buffer + inputQueue == received
      ensures EscOnlyFirst(buffer)
      ensures groupQueue == old(groupQueue) && timeout == old(timeout) && grouping == old(grouping)
      ensures inputEvent == old(inputEvent) && running == old(running) && starts == old(starts)
      ensures received == old(received) && delivered == old(delivered)
    {
      var ch := inputQueue[0];
      assert inputQueue == [ch] + inputQueue[1..];
      inputQueue := inputQueue[1..];
      ShiftChar(Concat(delivered + groupQueue), buffer, ch, inputQueue);
      buffer := buffer + [ch];
    }

    /** One turn of `group_main` in which `get` raises `queue.Empty`:
        it waited `timeout` for a character, or polled at timeout 0,
        and the queue stayed empty. */
    method OnTimeout()
      requires Valid() && running && inputQueue == []
      modifies this
      ensures Valid()
      ensures groupQueue == old(groupQueue) + (if old(buffer) == [] then [] else [old(buffer)])
      ensures buffer == [] && !grouping
      ensures timeout == if old(buffer) == [] then old(timeout) else 0
      ensures inputQueue == old(inputQueue) && received == old(received) && delivered == old(delivered)
      ensures running == old(running)
    {
      DumpGroup();
      grouping := false;
    }

    /** `read`: start the workers on first use, block until the event is
        set, then pop the oldest group and clear the event when none is
        left. */
    method Read() returns (r: ReadResult)
      requires Valid()
      modifies this
      ensures Valid() && running
      ensures starts == (if old(running) then old(starts) else 1)
      ensures !old(inputEvent) ==> r == Blocks && groupQueue == old(groupQueue) && delivered == old(delivered)
      ensures old(inputEvent) ==>
                && r == Got(old(groupQueue)[0])
                && groupQueue == old(groupQueue)[1..]
                && delivered == old(delivered) + [old(groupQueue)[0]]
                && (inputEvent <==> |groupQueue| > 0)
      ensures r.Got? ==> WellGrouped(r.group)
      ensures inputQueue == old(inputQueue) && buffer == old(buffer) && timeout == old(timeout)
      ensures received == old(received)
    {
      if !running {
        Start();
      }
      if !inputEvent {
        return Blocks;
      }
      if |groupQueue| == 0 {
        return Got("");
      }
      var group := groupQueue[0];
      assert (delivered + [group]) + groupQueue[1..] == delivered + groupQueue;
      assert group in groupQueue;
      groupQueue := groupQueue[1..];
      delivered := delivered + [group];
      if |groupQueue| == 0 {
        inputEvent := false;
      }
      return Got(group);
    }
  }
}
