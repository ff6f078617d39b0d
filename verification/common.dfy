/** Small shared definitions: an optional value and the integer helpers the
    controller uses (absolute value and Lunar's `cap`). */
module Common {

  datatype Option<+T> = None | Some(value: T)

  /** `CGDirectDisplayID`. */
  type DisplayId = nat

  /** `abs` on integers. */
  function Abs(x: int): (r: nat)
    ensures r == x || r == -x
  {
    if x < 0 then -x else x
  }

  /** Lunar's `cap(value, minVal:, maxVal:)`: first bounded above by `hi`, then
      below by `lo`, so `lo` wins when the bounds are crossed. */
  function Cap(v: int, lo: int, hi: int): (r: int)
    ensures lo <= r
    ensures lo <= hi ==> r <= hi
    ensures lo <= v <= hi ==> r == v
    ensures v < lo ==> r == lo
    ensures lo <= hi < v ==> r == hi
  {
    var below := if v < hi then v else hi;
    if below < lo then lo else below
  }
}
