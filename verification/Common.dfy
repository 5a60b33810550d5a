/** What several parts of the model share. */
module Common {

  datatype Option<+T> = None | Some(value: T)

  const PAGE_SIZE: nat := 4096

  /** From a physical page to its kernel virtual page. */
  const OFFSET: nat := 0xF_FFFF_FC00_0000

  ghost predicate NoDup<T>(s: seq<T>) {
    forall i, j :: 0 <= i < j < |s| ==> s[i] != s[j]
  }
}
