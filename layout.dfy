/**
 * The database layout both scripts agree on: a capture window of packets at
 * /csidata/{category}/{index}/packet_i, and its prediction record at
 * /prediction/{category}/{index}.
 */
module Layout {
  import opened Text
  import opened Store

  /** The child key of packet `i` in a window. */
  function PacketKey(i: nat): string
  {
    "packet_" + IntToString(i)
  }

  /** Different packets never share a key. */
  lemma PacketKeyInjective(i: nat, j: nat)
    requires PacketKey(i) == PacketKey(j)
    ensures i == j
  {
    assert IntToString(i) == PacketKey(i)[7..];
    assert IntToString(j) == PacketKey(j)[7..];
    IntToStringInjective(i, j);
  }

  function WindowPath(category: string, index: int): Path
  {
    ["csidata", category, IntToString(index)]
  }

  function PredictionPath(category: string, index: int): Path
  {
    ["prediction", category, IntToString(index)]
  }
}
