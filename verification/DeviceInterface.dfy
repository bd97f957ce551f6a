/**
What the driver shares with user programs (i2c_oled_global.h): the write and ioctl command
numbers, and the error numbers that its calls return negated.
*/
module DeviceInterface {

  const EPERM := 1
  const ENOMEM := 12

  // 1 parameter commands, in a write and in an ioctl
  const CMD_DISABLE_SEQ_NUM: nat := 0x01
  const CMD_ENABLE_SEQ_NUM: nat := 0x02
  const CMD_FILL_BUFFER_SEQ_NUM: nat := 0x03
  const CMD_CLEAR_BUFFER_SEQ_NUM: nat := 0x04
  const CMD_RELEASE_POLL_SEQ_NUM: nat := 0x05

  // longer write commands
  const CMD_SET_PIXEL: nat := 0x05
  const CMD_H_LINE: nat := 0x07
  const CMD_V_LINE: nat := 0x08
  const CMD_RECT_FILL: nat := 0x09
  const CMD_RECT_CLEAR: nat := 0x0A

  const ESS_MAGIC: nat := 0x45            // 'E'

  /** `_IO(ESS_MAGIC, nr)` */
  function IoctlCode(nr: nat): nat {
    ESS_MAGIC * 256 + nr
  }
}
