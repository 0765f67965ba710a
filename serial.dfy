/**
 * The serial port the driver talks through (a pyserial `Serial` object),
 * reduced to what the driver uses: the count of waiting characters,
 * reading, writing, closing, and the 100 ms sleeps during which the modem
 * delivers its next chunk.
 */
module SerialPort {
  import opened Wire

  class Port {
    /** Characters received and not yet read. */
    var rx: string
    /** Chunks the modem will deliver, one per sleep. */
    var script: seq<string>
    /** Everything written, one entry per write. */
    var sent: seq<string>
    var isOpen: bool

    function State(): PortState
      reads this
    {
      PortState(rx, script, sent)
    }

    /** A port opened (or not) on a modem that will answer with `script`. */
    constructor (script: seq<string>, opens: bool)
      ensures State() == PortState("", script, []) && isOpen == opens
    {
      rx := "";
      this.script := script;
      sent := [];
      isOpen := opens;
    }

    /** `inWaiting()`: how many characters can be read without waiting. */
    method InWaiting() returns (n: nat)
      ensures n == |rx|
    {
      n := |rx|;
    }

    /** `read(count)`: up to `count` of the waiting characters, oldest first. */
    method Read(count: nat) returns (data: string)
      modifies this
      ensures old(rx) == data + rx
      ensures |data| == if count < |old(rx)| then count else |old(rx)|
      ensures script == old(script) && sent == old(sent) && isOpen == old(isOpen)
    {
      var n := if count < |rx| then count else |rx|;
      data := rx[..n];
      rx := rx[n..];
    }

    /** `write(data)`. */
    method Write(data: string)
      modifies this
      ensures sent == old(sent) + [data]
      ensures rx == old(rx) && script == old(script) && isOpen == old(isOpen)
    {
      sent := sent + [data];
    }

    /** `time.sleep(.100)`: the modem delivers its next chunk. */
    method Sleep()
      modifies this
      ensures State() == Tick(old(State()))
      ensures isOpen == old(isOpen)
    {
      if script != [] {
        rx := rx + script[0];
        script := script[1..];
      }
    }

    method Close()
      modifies this
      ensures State() == old(State()) && !isOpen
    {
      isOpen := false;
    }
  }
}
