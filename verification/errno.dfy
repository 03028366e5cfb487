/** The Zephyr error numbers the drivers return, negated, as their failure codes. */
module Errno {
  const EIO := 5
  const ENODEV := 19
  const EINVAL := 22
  const ENOTSUP := 134
}
