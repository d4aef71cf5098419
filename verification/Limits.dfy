/** The limits on what is decoded from a server and on what is retained of a result. */
module Limits {
  const USIZE_MAX: nat := 0xFFFF_FFFF_FFFF_FFFF

  const MAX_RESULT_ROWS: nat := 10_000
  const MAX_RESULT_COLUMNS: nat := 1_024
  const MAX_RESULT_BYTES: nat := 8 * 1024 * 1024
  const MAX_RESULT_CELL_BYTES: nat := 1024 * 1024
  const MAX_RESULT_NOTICES: nat := 32

  const MAX_REDIS_CELLS: nat := 10_000
  const MAX_REDIS_CELL_BYTES: nat := 64 * 1024
  const MAX_REDIS_DEPTH: nat := 8
}
