/**
 Values shared by the whole model: bytes, mac and ip addresses, and the address classes of
 src/types.rs.
 */
module Types {

  type byte = x: int | 0 <= x < 256

  /** A mac address: six octets in wire order. */
  type Mac = m: seq<byte> | |m| == 6 witness [0, 0, 0, 0, 0, 0]

  type Octets4 = s: seq<byte> | |s| == 4 witness [0, 0, 0, 0]
  type Octets16 = s: seq<byte> | |s| == 16 witness [0, 0, 0, 0, 0, 0, 0, 0, 0, 0, 0, 0, 0, 0, 0, 0]

  datatype Ip = V4(o4: Octets4) | V6(o6: Octets16)

  datatype Family = Fam4 | Fam6

  datatype Option<+T> = None | Some(value: T)

  function FamilyOf(ip: Ip): Family {
    if ip.V4? then Fam4 else Fam6
  }

  function Zeros(n: nat): (z: seq<byte>)
    ensures |z| == n
  {
    seq(n, _ => 0)
  }

  /** fe80::/10 or 169.254/16. */
  predicate IsLinkLocal(ip: Ip) {
    match ip
    case V6(o) => o[0] == 0xfe && o[1] / 64 == 2
    case V4(o) => o[0] == 169 && o[1] == 254
  }

  /** Neither multicast, unspecified, loopback nor (v4) broadcast. Link-local is learnable. */
  predicate IsLearnable(ip: Ip) {
    match ip
    case V4(o) =>
      && !(224 <= o[0] < 240)
      && o != Zeros(4)
      && o[0] != 127
      && o != [255, 255, 255, 255]
    case V6(o) =>
      && o[0] != 0xff
      && o != Zeros(16)
      && o != Zeros(15) + [1]
  }

  function ToSet(ips: seq<Ip>): set<Ip> {
    set ip | ip in ips
  }

  function Max(a: int, b: int): int {
    if a < b then b else a
  }
}
