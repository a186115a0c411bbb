/** The numbers that the protocol description fixes. */
module Numbers {
  import opened Frames
  import opened Device
  import opened BootSession
  import ServiceTask

  /** `docs/protocol.md`, sections 2, 3, 5, 6, 7 and 9. */
  lemma DocumentedNumbers()
    ensures SOF_FIRST == 0xA5 && SOF_SECOND == 0x5A && PROTOCOL_VERSION == 1 && MAX_PAYLOAD == 1024
    ensures HELLO == 0x01 && INFO == 0x02 && ABORT == 0x13 && BOOT == 0x20
    ensures BEGIN == 0x10 && DATA == 0x11 && END == 0x12
    ensures OK == 0x0 && ERR_VERSION == 0x1 && ERR_COMMAND == 0x2 && ERR_SEQUENCE == 0x3 && ERR_LENGTH == 0x4
    ensures ERR_STATE == 0x6 && ERR_OFFSET == 0x7 && ERR_FLASH == 0x8 && ERR_IMAGE == 0x9 && ERR_HASH == 0xA
    ensures RESPONSE_PREFIX == 9 && MAX_DETAIL == 96 && BEGIN_PREFIX == 37 && MAX_VERSION == 32 && OFFSET_SIZE == 4
    ensures ENTRY_POLLS == 8000 && WINDOW_POLLS == 1000 && SESSION_POLLS == 100_000
    ensures ServiceTask.SESSION_TIMEOUT_MS == 10_000
  {
  }
}
