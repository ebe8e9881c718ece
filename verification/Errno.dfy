/** The error numbers firmware returns, negative as it returns them. */
module Errno {
  const ENOENT: int := -2
  const E2BIG: int := -7
  const EACCES: int := -13
  const EBUSY: int := -16
  const EEXIST: int := -17
  const ENODEV: int := -19
  const EINVAL: int := -22
  const ENOSPC: int := -28
  const ERANGE: int := -34
  const EPROTOTYPE: int := -91
  const EALREADY: int := -114
}
