/** The server's settings (`src/config.rs`): the record read from the
    environment, its validation and the defaults for the optional fields. */
module Config {
  import opened Wrappers

  /** Rust's `u16`, the type of a TCP port. */
  newtype u16 = x: int | 0 <= x < 0x1_0000

  const DEFAULT_PORT: u16 := 9950
  const DEFAULT_STORAGE_DIR: string := "./baste_storage"
  const DEFAULT_ADDRESS: string := "0.0.0.0"

  /** `#[validate(length(min = 10))]` on `secret_token`. */
  const MIN_SECRET_TOKEN_LENGTH: nat := 10

  /** The settings record, as `Config::init_from_env` fills it from
      BASTE_SECRET_TOKEN, BASTE_PORT, BASTE_ADDRESS and BASTE_STORAGE_DIR. */
  datatype Config = Config(
    secretToken: string,
    port: Option<u16>,
    address: Option<string>,
    storageDirectory: Option<string>)

  /** The error `validate()` reports: the token is shorter than allowed.
      It carries the offending length. */
  datatype ConfigError = SecretTokenTooShort(length: nat)

  /** What `validate()` checks: the secret token has at least ten
      characters. A Dafny `char` is a Unicode scalar value, as a Rust `char`
      is, so `|s|` is the count the validator takes. */
  predicate IsValid(c: Config) {
    |c.secretToken| >= MIN_SECRET_TOKEN_LENGTH
  }

  /** Every optional field holds a value. */
  predicate IsComplete(c: Config) {
    c.port.Some? && c.address.Some? && c.storageDirectory.Some?
  }

  /** `o.unwrap_or(d)` wrapped back into `Some`. */
  function OrDefault<T>(o: Option<T>, d: T): Option<T> {
    Some(if o.Some? then o.value else d)
  }

  /** Reference definition of the defaulting step: fill each missing
      optional field with its default and keep everything else. */
  function ApplyDefaults(c: Config): Config {
    c.(port := OrDefault(c.port, DEFAULT_PORT),
       storageDirectory := OrDefault(c.storageDirectory, DEFAULT_STORAGE_DIR),
       address := OrDefault(c.address, DEFAULT_ADDRESS))
  }

  /** `Config::load` after `init_from_env`: validate, then reassign the three
      optional fields of the mutable record one after another. */
  method Load(raw: Config) returns (r: Result<Config, ConfigError>)
    // validation comes first: a short token fails whatever the optional fields hold
    ensures r.Failure? <==> |raw.secretToken| < MIN_SECRET_TOKEN_LENGTH
    ensures r.Failure? ==> r.error == SecretTokenTooShort(|raw.secretToken|)
    ensures r.Success? ==> r.value == ApplyDefaults(raw)
    ensures r.Success? ==> IsValid(r.value) && IsComplete(r.value)
    ensures r.Success? ==> r.value.secretToken == raw.secretToken
    ensures r.Success? ==> r.value.port == (if raw.port.None? then Some(DEFAULT_PORT) else raw.port)
    ensures r.Success? ==>
      r.value.storageDirectory == (if raw.storageDirectory.None? then Some(DEFAULT_STORAGE_DIR) else raw.storageDirectory)
    ensures r.Success? ==> r.value.address == (if raw.address.None? then Some(DEFAULT_ADDRESS) else raw.address)
  {
    var c := raw;
    if !IsValid(c) {
      return Failure(SecretTokenTooShort(|c.secretToken|));
    }
    c := c.(port := match c.port
                    case None => Some(DEFAULT_PORT)
                    case Some(data) => Some(data));
    c := c.(storageDirectory := match c.storageDirectory
                                case Some(path) => Some(path)
                                case None => Some(DEFAULT_STORAGE_DIR));
    c := c.(address := match c.address
                       case Some(address) => Some(address)
                       case None => Some(DEFAULT_ADDRESS));
    return Success(c);
  }

  /** Defaulting keeps the token and every field that was present, and
      leaves no field missing. */
  lemma ApplyDefaultsKeepsPresent(c: Config)
    ensures ApplyDefaults(c).secretToken == c.secretToken
    ensures IsComplete(ApplyDefaults(c))
    ensures c.port.Some? ==> ApplyDefaults(c).port == c.port
    ensures c.storageDirectory.Some? ==> ApplyDefaults(c).storageDirectory == c.storageDirectory
    ensures c.address.Some? ==> ApplyDefaults(c).address == c.address
  {
  }

  /** A complete record is a fixed point of defaulting, so defaulting a
      second time changes nothing. */
  lemma ApplyDefaultsIdempotent(c: Config)
    ensures IsComplete(c) ==> ApplyDefaults(c) == c
    ensures ApplyDefaults(ApplyDefaults(c)) == ApplyDefaults(c)
  {
  }
}
