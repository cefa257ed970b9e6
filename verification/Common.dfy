/** Names that several parts of the program share. */
module Common {

  datatype Option<+T> = None | Some(value: T)

  /** The port id that stands for all ports. */
  const RTE_PORT_ALL: nat := 0xFFFF
}
