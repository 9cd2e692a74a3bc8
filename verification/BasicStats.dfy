/** Times, packets and byte counters (src/pkt_info.h, src/basic_stats.c). Times are in microseconds;
    byte counters are whole numbers, averages are reals. */
module BasicStats {
  import opened Wrappers

  // substract_times_ms
  function Ms(a: int, b: int): real {
    (a - b) as real / 1000.0
  }

  // packet_info_t: everything but the reference count is fixed when the packet is acquired.
  class PacketInfo {
    const size: nat
    const timestamp: int
    const names: seq<Option<string>>
    var refCount: int

    constructor (size: nat, timestamp: int, names: seq<Option<string>>)
      ensures this.size == size && this.timestamp == timestamp && this.names == names && refCount == 0
    {
      this.size, this.timestamp, this.names, refCount := size, timestamp, names, 0;
    }
  }

  datatype Direction = Eitherbound | Inbound | Outbound

  // packet_list_item_t
  datatype QueueItem = QueueItem(info: PacketInfo, direction: Direction)

  // basic_stats_t: `window` is aver_accu, the bytes of the packets still in the averaging window.
  datatype Stat = Stat(average: real, window: int, accumulated: int, avgSize: real, packets: nat, lastTime: int)

  // basic_stats_reset
  function Zero(now: int): Stat {
    Stat(0.0, 0, 0, 0.0, 0, now)
  }

  // basic_stats_add
  function AddBytes(s: Stat, v: nat, now: int): Stat {
    var total := s.accumulated + v;
    s.(accumulated := total, window := s.window + v, packets := s.packets + 1,
       avgSize := total as real / (s.packets + 1) as real, lastTime := now)
  }

  // basic_stats_sub
  function SubBytes(s: Stat, v: nat): Stat {
    s.(window := s.window - v, average := if s.window - v == 0 then 0.0 else s.average)
  }

  // basic_stats_avg
  function Averaged(s: Stat, ms: real): Stat {
    if ms != 0.0 then s.(average := 8000.0 * s.window as real / ms) else s
  }

  // An empty window has average zero.
  predicate Idle(s: Stat) {
    s.window == 0 ==> s.average == 0.0
  }

  // The average that the window calls for.
  predicate IsAverage(s: Stat, ms: real) {
    ms != 0.0 ==> s.average == 8000.0 * s.window as real / ms
  }
}
