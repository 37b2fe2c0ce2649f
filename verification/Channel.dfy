/** A byte channel: what is still to be read, and what has been written.
    How the incoming bytes are cut into reads is left open. */
module Channel {

  class Channel {
    // bytes that reads without an error will still deliver
    var incoming: string
    // bytes that the first failing read delivers together with its error
    var tail: string
    // everything written so far
    var outgoing: string

    constructor (incoming: string, tail: string)
      ensures this.incoming == incoming && this.tail == tail && outgoing == ""
    {
      this.incoming, this.tail, this.outgoing := incoming, tail, "";
    }

    /** One read into a buffer of `max` bytes. */
    method Read(max: nat) returns (data: string, failed: bool)
      requires max > 0
      modifies this`incoming, this`tail
      ensures failed <==> old(incoming) == ""
      ensures !failed ==> 0 < |data| <= max && data + incoming == old(incoming) && tail == old(tail)
      ensures failed ==> incoming == "" && data + tail == old(tail)
    {
      if incoming == "" {
        var n :| 0 <= n <= |tail| && n <= max;
        data, failed := tail[..n], true;
        tail := tail[n..];
      } else {
        var n :| 0 < n <= |incoming| && n <= max;
        data, failed := incoming[..n], false;
        incoming := incoming[n..];
      }
    }

    /** A read into a buffer of one byte. */
    method ReadByte() returns (b: char, failed: bool)
      modifies this`incoming, this`tail
      ensures failed <==> old(incoming) == ""
      ensures !failed ==> [b] + incoming == old(incoming)
      ensures failed ==> incoming == ""
    {
      var data;
      data, failed := Read(1);
      b := if failed then '\0' else data[0];
    }

    /** Reads until `size` bytes have arrived or the channel fails. */
    method ReadFull(size: nat) returns (data: string, failed: bool)
      modifies this`incoming, this`tail
      ensures failed <==> size > |old(incoming)|
      ensures !failed ==> |data| == size && data + incoming == old(incoming)
    {
      data, failed := "", false;
      while |data| < size
        invariant |data| <= size && data + incoming == old(incoming)
        decreases size - |data|
      {
        var part;
        part, failed := Read(size - |data|);
        if failed { return; }
        data := data + part;
      }
    }

    method Write(s: string)
      modifies this`outgoing
      ensures outgoing == old(outgoing) + s
    {
      outgoing := outgoing + s;
    }
  }
}
