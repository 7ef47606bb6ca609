/** The fixed configuration shared by every entry point (the CONFIG and
    TELEGRAM_CONFIG objects, repeated as top-level constants in the
    standalone detector). */
module Config {
  const FRAME_WIDTH: nat := 160
  const FRAME_HEIGHT: nat := 120
  const MIN_AREA: real := 50.0
  const MAX_AREA: real := 30000.0
  const PERSON_PERCENTILE: int := 30
  const FIRE_THRESHOLD_ABS: int := 255
  const PROCESS_EVERY_N_FRAMES: nat := 2
  /** cooldownSeconds of both the high- and the low-quality channel. */
  const COOLDOWN_SECONDS: int := 30
}
