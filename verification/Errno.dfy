/** The error numbers of libc/include/errno.h; calls return them negated. */
module Errno {
  const ENOENT: int := 2
  const EACCES: int := 4
  const EEXIST: int := 5
  const EAGAIN: int := 6
  const EFAULT: int := 7
  const EINVAL: int := 8
  const EOWNERDEAD: int := 9
  const ESRCH: int := 10
  const ENAMETOOLONG: int := 12
  const ENOSPC: int := 13
  const EMSGSIZE: int := 14
  const E2BIG: int := 15
}
