/** What several modules share. */
module Basics {
  type byte = b: int | 0 <= b < 256

  datatype Option<T> = None | Some(value: T)

  /** The reasons for which a bufferevent does not read or write: BEV_SUSPEND_WM and the others. */
  datatype Reason = Watermark | Bandwidth | GroupBandwidth | NameLookup | Filtering

  /** The widths of the integers of C on the machines that the code is built for. */
  const TWO32: int := 0x1_0000_0000
  const TWO64: int := 0x1_0000_0000_0000_0000
  const INT_MAX: int := 0x7fff_ffff
  const SSIZE_MAX: int := 0x7fff_ffff_ffff_ffff
  const SIZE_MAX: int := 0xffff_ffff_ffff_ffff

  lemma SubsetSize<T>(s: set<T>, t: set<T>)
    requires s <= t
    ensures |s| <= |t|
  {
    assert t == s + (t - s);
  }
}
