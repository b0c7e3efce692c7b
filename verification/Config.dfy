/** Limits and buffer sizes that server and client share (common/config.h). */
module Config {
  const MAX_CLIENTS: nat := 16
  /** The size of the table of exports a refresh remembers. */
  const MAX_DEVICES: nat := 32
  const MAX_PORTS: nat := 8
  const MAX_INTERFACES: nat := 32

  const PATH_MAX: nat := 256
  const BUSID_MAX: nat := 32
  const IP_MAX: nat := 64
}
