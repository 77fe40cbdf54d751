/**
 * The record descriptor (CacheItemInfo): the metadata of one stored version
 * of a record, compared by value on all four fields.
 */
module CacheItems {
  import opened Numerals

  /**
   * UniqueName is the logical key; the two DateTime values are kept as their
   * tick counts, which is all the store reads or writes of them.
   */
  datatype CacheItemInfo = CacheItemInfo(
    uniqueName: string,
    isOptimized: bool,
    expirationTime: Ticks,
    updatedTime: Ticks)
}
