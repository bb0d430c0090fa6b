/** The layer's own code, with the packet buffer overwritten in place. */
module HeaderElisionCode {
  import opened Prelude
  import opened HeaderElision

  class MulticastLayer {
    const me: Ip
    var toLower: seq<Passed>
    var toUpper: seq<Passed>

    constructor (me: Ip)
      ensures this.me == me && toLower == [] && toUpper == []
    {
      this.me, toLower, toUpper := me, [], [];
    }

    /** The next header goes into byte 39, in front of the payload, and nothing else of the packet
        changes. */
    method OnUpperLayerData(packet: array<byte>, destinations: seq<Ip>)
      modifies this`toLower, packet
      ensures toLower == old(toLower) + Down(me, old(packet[..]), destinations)
      ensures var was := old(packet[..]);
        packet[..] == if IsUnicast(was) && Source(was) == me then was[39 := was[6]] else was
    {
      if packet.Length <= 40 || packet[0] / 16 != 6 {
        return;
      }
      ghost var was := packet[..];
      var protocol := packet[6];
      var src, dst := packet[8..24], packet[24..40];
      if dst[0] == 0xff {
        var msg: Bytes := [0xff, 0x01, protocol] + dst + packet[40..];
        assert dst == Destination(was) && packet[40..] == was[40..];
        ghost var before := toLower;
        for k := 0 to |destinations|
          invariant packet[..] == was
          invariant toLower == before + Down(me, was, destinations)[..k]
        {
          toLower := toLower + [Passed(destinations[k], msg)];
          DownGroup(me, was, destinations, k);
        }
        assert Down(me, was, destinations)[..|destinations|] == Down(me, was, destinations);
      }
      if dst[0] == 0xfc && dst[1] == 0x94 {
        if src != me {
          return;
        }
        packet[39] := protocol;
        var msg := packet[39..];
        assert msg == [protocol] + was[40..];
        toLower := toLower + [Passed(dst, msg)];
      }
    }

    method OnLowerLayerData(source: Ip, data: Bytes)
      modifies this`toUpper
      ensures var up := Up(me, source, data);
        toUpper == old(toUpper) + if up.Some? then [up.value] else []
    {
      if |data| < 2 {
        return;
      }
      var protocol := data[0];
      if protocol == 0xff && data[1] == 0x01 {
        if |data| < 20 {
          return;
        }
        protocol := data[2];
        var group := data[3..19];
        if group[0] != 0xff {
          return;
        }
        var size := |data| - 19;
        var packet: Bytes := [0x60, 0, 0, 0, size / 256 % 256, size % 256, protocol, 3];
        packet := packet + source + group;
        packet := packet + data[19..];
        toUpper := toUpper + [Passed(UNSET_IP, packet)];
      } else {
        var size := |data| - 1;
        var packet: Bytes := [0x60, 0, 0, 0, size / 256 % 256, size % 256, protocol, 3];
        packet := packet + source + me;
        packet := packet + data[1..];
        toUpper := toUpper + [Passed(source, packet)];
      }
    }
  }
}
