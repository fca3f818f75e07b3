/** Optional values, and the error numbers of the kernel that the driver returns. */
module Common {
  datatype Option<T> = None | Some(value: T)

  const EINTR: int := 4
  const EIO: int := 5
  const ENOEXEC: int := 8
  const ECHILD: int := 10
  const ENOMEM: int := 12
  const EBUSY: int := 16
  const EEXIST: int := 17
  const ENODEV: int := 19
  const EINVAL: int := 22
  const EOVERFLOW: int := 75
}
