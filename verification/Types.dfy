/** Types that the kernel side and the daemon side share. */
module Types {

  datatype Option<+T> = None | Some(value: T)

  /** A hardware address as the kernel stores it. */
  type Mac = m: seq<int> | |m| == 6 && forall i :: 0 <= i < |m| ==> 0 <= m[i] < 256 witness [0, 0, 0, 0, 0, 0]

  datatype Verdict = Accept | Drop

  /** A device that the kernel knows, with its out-of-time flag. */
  datatype Client = Client(mac: Mac, blocked: bool)
}
