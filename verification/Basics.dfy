/** Small types shared by the modules. */
module Basics {
  type byte = x: int | 0 <= x < 256

  datatype Option<T> = None | Some(value: T)

  /** The facts about a file that the archive code looks at. */
  datatype Stat = Stat(dev: nat, ino: nat, nlink: nat, size: nat, dir: bool)
}
