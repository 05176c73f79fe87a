/** The input-register space of the inverter and how much of it one request may cover. */
module Registers {
  const TOTAL_REGISTERS: nat := 750
  const HARDWARE_READ_BLOCK_SIZE: nat := 40
  const MAX_READ_REGISTERS: nat := 125
}
