/** How session options become runtime limits. Zero selects a default; most limits
    are then clamped, but the in-flight limit is not bounded above. */
module RuntimeConfig {
  import opened Ptyx
  import WriteQueue

  type u32 = x: int | 0 <= x <= 0xFFFF_FFFF

  datatype Options = Options(
    flags: bv32,
    readBufferSize: u32,
    outputBatchMaxBytes: u32,
    outputBatchMaxDelayUs: u32,
    modePollIntervalMs: u32,
    maxInflightBytes: u64,
    maxExternalOutputBytes: u64,
    writeQueueMaxBytes: u64)

  datatype OutputConfig = OutputConfig(
    requireAcks: bool,
    maxInflight: u64,
    readBufferSize: usize,
    batchMax: usize,
    maxDelayUs: u64,
    useExternal: bool,
    maxExternal: u64)

  datatype Config = Config(output: OutputConfig, modeEvents: bool, modePollMs: u64, writeQueueMax: usize)

  function OrDefault(value: u64, default: u64): u64 {
    if value == 0 then default else value
  }

  function Clamp(value: u64, low: u64, high: u64): u64
    requires low <= high
  {
    if value < low then low else if value > high then high else value
  }

  function FromOptions(o: Options): Config {
    Config(
      OutputConfig(
        o.flags & 4 != 0,
        OrDefault(o.maxInflightBytes, 4 * MIB),
        Clamp(OrDefault(o.readBufferSize, 256 * KIB), 4 * KIB, MIB),
        Clamp(OrDefault(o.outputBatchMaxBytes, 128 * KIB), 64 * KIB, 256 * KIB),
        Clamp(OrDefault(o.outputBatchMaxDelayUs, 1_000), 1, 1_000_000),
        o.flags & 1 != 0,
        OrDefault(o.maxExternalOutputBytes, 64 * MIB)),
      o.flags & 2 != 0,
      Clamp(OrDefault(o.modePollIntervalMs, 50), 25, 60_000),
      Clamp(OrDefault(o.writeQueueMaxBytes, 64 * MIB), 64 * KIB, 512 * MIB))
  }

  /** A requested size: zero asks for the default, and the rest is brought into range. */
  ghost predicate Honours(result: u64, requested: u64, default: u64, low: u64, high: u64) {
    && low <= result <= high
    && (requested == 0 ==> result == default)
    && (low <= requested <= high && requested != 0 ==> result == requested)
    && (0 < requested < low ==> result == low)
    && (high < requested ==> result == high)
  }

  /** What every option means, with the numbers written out. */
  lemma OptionsAreHonoured(o: Options)
    ensures var c := FromOptions(o);
            && (c.output.useExternal <==> o.flags & 1 == 1)
            && (c.modeEvents <==> o.flags & 2 == 2)
            && (c.output.requireAcks <==> o.flags & 4 == 4)
            && Honours(c.output.readBufferSize, o.readBufferSize, 262_144, 4_096, 1_048_576)
            && Honours(c.output.batchMax, o.outputBatchMaxBytes, 131_072, 65_536, 262_144)
            && Honours(c.output.maxDelayUs, o.outputBatchMaxDelayUs, 1_000, 1, 1_000_000)
            && Honours(c.modePollMs, o.modePollIntervalMs, 50, 25, 60_000)
            && Honours(c.writeQueueMax, o.writeQueueMaxBytes, 67_108_864, 65_536, 536_870_912)
            && c.output.maxInflight == (if o.maxInflightBytes == 0 then 4_194_304 else o.maxInflightBytes)
            && c.output.maxExternal == (if o.maxExternalOutputBytes == 0 then 67_108_864 else o.maxExternalOutputBytes)
  {
    assert o.flags & 1 == 0 || o.flags & 1 == 1;
    assert o.flags & 2 == 0 || o.flags & 2 == 2;
    assert o.flags & 4 == 0 || o.flags & 4 == 4;
  }

  /** What the output path relies on. */
  ghost predicate Usable(c: OutputConfig) {
    1 <= c.maxInflight && 1 <= c.readBufferSize && 1 <= c.batchMax
  }

  /** The in-flight counter, which can reach the limit less one plus a batch, fits 64 bits. */
  ghost predicate HasRoom(c: OutputConfig) {
    c.maxInflight - 1 + c.batchMax <= U64_MAX
  }

  /** All options give a usable configuration and a write queue limit in range. Whether
      the in-flight counter has room is up to the requested limit, which is not clamped. */
  lemma OptionsAreUsable(o: Options)
    ensures var c := FromOptions(o);
            && Usable(c.output)
            && (HasRoom(c.output) <==> o.maxInflightBytes - 1 <= U64_MAX - c.output.batchMax)
            && 64 * KIB <= c.output.batchMax <= 256 * KIB
            && c.writeQueueMax <= WriteQueue.MAX_WRITE_QUEUE_MAX_BYTES
  {
    assert 4 * MIB + 256 * KIB <= U64_MAX;
  }

  /** For example, asking for the largest limit leaves none. */
  lemma LargestLimitHasNoRoom(o: Options)
    requires o.maxInflightBytes == U64_MAX
    ensures !HasRoom(FromOptions(o).output)
  {
    OptionsAreUsable(o);
  }
}
