/** A peer as src/data/peer.h declares it, and its guid as text. */
module Peers {
  import opened Bytes

  /** Bytes on the discovery side, where they are only compared and counted in. */
  type octet = x: int | 0 <= x < 256

  /** The characters of a C string of octets, without its NUL. */
  type Text = s: seq<octet> | 0 !in s witness []

  type Guid16 = g: seq<octet> | |g| == 16 witness [0, 0, 0, 0, 0, 0, 0, 0, 0, 0, 0, 0, 0, 0, 0, 0]

  type u32 = x: nat | x < 0x1_0000_0000

  datatype Peer = Peer(guid: Guid16, host: Text, name: Text, interval: u32, lastSeen: int)

  function TextOf(s: seq<octet>): Text {
    s[..StrLen(s, 0)]
  }

  /** jnx_guid_to_string, as far as it matters: two hexadecimal digits for each byte. */
  function HexDigit(b: nat): (d: octet)
    requires b < 16
    ensures d != 0
  {
    if b < 10 then 0x30 + b else 0x57 + b
  }

  function HexAt(g: Guid16, i: nat): (d: octet)
    requires i < 32
    ensures d != 0
  {
    if i % 2 == 0 then HexDigit(g[i / 2] / 16) else HexDigit(g[i / 2] % 16)
  }

  function GuidStr(g: Guid16): (s: Text)
    ensures |s| == 32
  {
    seq(32, i requires 0 <= i < 32 => HexAt(g, i))
  }

  lemma GuidStrInjective(g: Guid16, h: Guid16)
    requires GuidStr(g) == GuidStr(h)
    ensures g == h
  {
    forall i | 0 <= i < 16
      ensures g[i] == h[i]
    {
      assert GuidStr(g)[2 * i] == GuidStr(h)[2 * i] && GuidStr(g)[2 * i + 1] == GuidStr(h)[2 * i + 1];
    }
  }
}
