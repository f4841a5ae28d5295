/** The shared helpers of `albackup/__init__.py` that are not connection scopes: logger
    naming, the backup information every dump and restore carries, and the byte layout
    of an encrypted configuration password.  The two scopes `transaction` and
    `execute_resultset` are in module Scope. */
module Base {
  import opened Common
  import opened Catalog
  import opened Scope

  // ---------------------------------------------------------------------------
  // Logger names

  /** `sep.join(parts)`. */
  function Join(sep: string, parts: seq<string>): string
  {
    if parts == [] then "" else if |parts| == 1 then parts[0] else parts[0] + sep + Join(sep, parts[1..])
  }

  /** `_getLogger(*names)`: the name of the logger it returns. */
  function LoggerName(names: seq<string>): string
  {
    Join(".", ["albackup"] + names)
  }

  /** `loggerFactory(name)(*names)`: the first level is preset. */
  function FactoryLoggerName(name: string, names: seq<string>): string
  {
    LoggerName([name] + names)
  }

  /** Every name preceded by a dot, in order. */
  function Dotted(names: seq<string>): string
  {
    if names == [] then "" else "." + names[0] + Dotted(names[1..])
  }

  lemma {:induction false} JoinDotted(first: string, rest: seq<string>)
    ensures Join(".", [first] + rest) == first + Dotted(rest)
    decreases |rest|
  {
    if rest != [] {
      assert ([first] + rest)[1..] == rest;
      JoinDotted(rest[0], rest[1..]);
      assert [rest[0]] + rest[1..] == rest;
    }
  }

  /** A logger name is `albackup` followed by each given name after a dot. */
  lemma LoggerNameSpec(names: seq<string>)
    ensures LoggerName(names) == "albackup" + Dotted(names)
  {
    JoinDotted("albackup", names);
  }

  /** A factory-made logger name is `albackup.<name>` followed by each further name
      after a dot. */
  lemma FactoryLoggerNameSpec(name: string, names: seq<string>)
    ensures FactoryLoggerName(name, names) == "albackup." + name + Dotted(names)
  {
    LoggerNameSpec([name] + names);
    assert ([name] + names)[1..] == names;
  }

  /** The unit test's factory `loggerFactory('TestInit')` called with no name, `l1`,
      and `l1, l1`. */
  lemma FixtureLoggerNames()
    ensures FactoryLoggerName("TestInit", []) == "albackup.TestInit"
    ensures FactoryLoggerName("TestInit", ["l1"]) == "albackup.TestInit.l1"
    ensures FactoryLoggerName("TestInit", ["l1", "l1"]) == "albackup.TestInit.l1.l1"
  {
    FactoryLoggerNameSpec("TestInit", []);
    FactoryLoggerNameSpec("TestInit", ["l1"]);
    FactoryLoggerNameSpec("TestInit", ["l1", "l1"]);
    assert ["l1", "l1"][1..] == ["l1"];
  }

  // ---------------------------------------------------------------------------
  // DumpRestoreBase

  /** What the `info` dictionary holds: time stamps, the reflected catalog, and lists
      of stored objects. */
  datatype InfoValue = Stamp(text: string) | Meta(meta: MetaData) | Objects(defs: seq<ObjectDef>)

  /** The information of a new dump or restore: only its start time. */
  function InitialInfo(started: string): (info: map<string, InfoValue>)
    ensures info.Keys == {"started"} && info["started"] == Stamp(started)
  {
    map["started" := Stamp(started)]
  }

  /** The keys the convenience properties read. */
  const INFO_KEYS: set<string> := {"meta", "started", "finished", "views", "procedures", "functions", "triggers"}

  lemma InitialInfoLacksTheRest(started: string, key: string)
    requires key in INFO_KEYS && key != "started"
    ensures key !in InitialInfo(started)
  {
  }

  /** The common state of a dump and a restore.  The start time is a parameter: the
      clock is outside the model. */
  class DumpRestoreBase {
    const backupDir: string
    const con: Connection
    var info: map<string, InfoValue>

    constructor (backupDir: string, con: Connection, started: string)
      ensures this.backupDir == backupDir && this.con == con
      ensures info == InitialInfo(started)
    {
      this.backupDir := backupDir;
      this.con := con;
      info := InitialInfo(started);
    }

    /** `self.info[key]`; `None` stands for the `KeyError` of a missing entry. */
    function Lookup(key: string): (r: Option<InfoValue>)
      reads this
      ensures r.Some? <==> key in info
      ensures r.Some? ==> r.value == info[key]
    {
      if key in info then Some(info[key]) else None
    }

    function MetaEntry(): Option<InfoValue> reads this { Lookup("meta") }
    function Started(): Option<InfoValue> reads this { Lookup("started") }
    function Finished(): Option<InfoValue> reads this { Lookup("finished") }
    function Views(): Option<InfoValue> reads this { Lookup("views") }
    function Procedures(): Option<InfoValue> reads this { Lookup("procedures") }
    function Functions(): Option<InfoValue> reads this { Lookup("functions") }
    function TriggerDefs(): Option<InfoValue> reads this { Lookup("triggers") }
  }

  // ---------------------------------------------------------------------------
  // Password._encrypt / _decrypt: the stored password is the base64 text of
  // IV (one cipher block), the password length as a native 4-byte int, and the
  // encrypted password padded to whole blocks.

  /** `Blowfish.block_size`. */
  const BLOCK_SIZE: nat := 8

  /** `struct.calcsize('i')`. */
  const INT_SIZE: nat := 4

  /** `bs - divmod(len(pw), bs)[1]`. */
  function PadLength(n: nat): nat
  {
    BLOCK_SIZE - n % BLOCK_SIZE
  }

  /** `struct.pack('b' * plen, *[plen] * plen)`. */
  function Padding(n: nat): seq<byte>
  {
    seq(PadLength(n), _ => PadLength(n) as byte)
  }

  /** The padding is one to eight bytes, fills the text up to whole blocks, and every
      byte of it is its own length. */
  lemma PaddingSpec(n: nat)
    ensures 1 <= PadLength(n) <= BLOCK_SIZE
    ensures (n + |Padding(n)|) % BLOCK_SIZE == 0
    ensures forall i :: 0 <= i < |Padding(n)| ==> Padding(n)[i] as int == |Padding(n)|
  {
  }

  const TWO_31: int := 0x8000_0000
  const TWO_32: int := 0x1_0000_0000

  /** `struct.pack('i', n)` on a little-endian machine: `None` is the `struct.error`
      for a value outside the 32-bit range. */
  function PackInt(n: int): (r: Option<seq<byte>>)
    ensures r.Some? <==> -TWO_31 <= n < TWO_31
    ensures r.Some? ==> |r.value| == INT_SIZE
  {
    if n < -TWO_31 || n >= TWO_31 then None
    else
      var u := if n < 0 then n + TWO_32 else n;
      var (r1, r2, r3) := (u / 256, u / 256 / 256, u / 256 / 256 / 256);
      Some([(u % 256) as byte, (r1 % 256) as byte, (r2 % 256) as byte, (r3 % 256) as byte])
  }

  /** `struct.unpack('i', b)[0]`: `None` is the `struct.error` for anything but four bytes. */
  function UnpackInt(b: seq<byte>): Option<int>
  {
    if |b| != INT_SIZE then None
    else
      var u := b[0] as int + 256 * b[1] as int + 65536 * b[2] as int + 16777216 * b[3] as int;
      Some(if u >= TWO_31 then u - TWO_32 else u)
  }

  /** Unpacking undoes packing. */
  lemma UnpackPack(n: int)
    requires -TWO_31 <= n < TWO_31
    ensures UnpackInt(PackInt(n).value) == Some(n)
  {
    var u := if n < 0 then n + TWO_32 else n;
    var (r1, r2, r3) := (u / 256, u / 256 / 256, u / 256 / 256 / 256);
    assert u == u % 256 + 256 * r1;
    assert r1 == r1 % 256 + 256 * r2;
    assert r2 == r2 % 256 + 256 * r3;
    assert r3 < 256;
  }

  /** Blowfish in CBC mode under the fixed secret, keyed by the IV; kept opaque. */
  datatype Cipher = Cipher(encrypt: (seq<byte>, seq<byte>) -> seq<byte>, decrypt: (seq<byte>, seq<byte>) -> seq<byte>)

  /** The cipher keeps the length of `m` and decrypting undoes encrypting it. */
  predicate Inverts(c: Cipher, iv: seq<byte>, m: seq<byte>)
  {
    |c.encrypt(iv, m)| == |m| && c.decrypt(iv, c.encrypt(iv, m)) == m
  }

  /** `base64.b64encode` and `b64decode`; `None` is the error of malformed text. */
  datatype Base64 = Base64(encode: seq<byte> -> string, decode: string -> Option<seq<byte>>)

  predicate DecodesBack(b64: Base64, raw: seq<byte>)
  {
    b64.decode(b64.encode(raw)) == Some(raw)
  }

  /** The bytes `_encrypt` encodes, for the random IV `iv`; `None` is the `struct.error`
      of a password too long for its length field. */
  function RawPassword(c: Cipher, iv: seq<byte>, pw: seq<byte>): Option<seq<byte>>
  {
    match PackInt(|pw|)
    case None => None
    case Some(blen) => Some(iv + blen + c.encrypt(iv, pw + Padding(|pw|)))
  }

  function Encrypt(c: Cipher, b64: Base64, iv: seq<byte>, pw: seq<byte>): Option<string>
  {
    match RawPassword(c, iv, pw)
    case None => None
    case Some(raw) => Some(b64.encode(raw))
  }

  /** `s[a:b]` for non-negative bounds. */
  function Slice(s: seq<byte>, a: nat, b: nat): seq<byte>
  {
    var i := Min(a, |s|);
    var j := Min(b, |s|);
    if j <= i then [] else s[i..j]
  }

  /** `s[0:n]` for any int `n`: a negative end counts from the back. */
  function Prefix(s: seq<byte>, n: int): seq<byte>
  {
    if n >= 0 then s[..Min(n, |s|)] else if |s| + n <= 0 then [] else s[..|s| + n]
  }

  /** `_decrypt`: split IV, length and ciphertext, decrypt, and keep the announced number
      of bytes.  `None` is an exception: malformed base64, a length field that is not
      four bytes, or a ciphertext that is not whole blocks, which CBC decryption rejects. */
  function Decrypt(c: Cipher, b64: Base64, stored: string): Option<seq<byte>>
  {
    match b64.decode(stored)
    case None => None
    case Some(raw) =>
      var iv := Slice(raw, 0, BLOCK_SIZE);
      var ct := Slice(raw, BLOCK_SIZE + INT_SIZE, |raw|);
      match UnpackInt(Slice(raw, BLOCK_SIZE, BLOCK_SIZE + INT_SIZE))
      case None => None
      case Some(blen) =>
        if |ct| % BLOCK_SIZE != 0 then None else Some(Prefix(c.decrypt(iv, ct), blen))
  }

  /** `_check`: whether the stored password decrypts to `pw`. */
  function Check(c: Cipher, b64: Base64, stored: string, pw: seq<byte>): Option<bool>
  {
    match Decrypt(c, b64, stored)
    case None => None
    case Some(current) => Some(current == pw)
  }

  /** The layout `_encrypt` writes: the IV, the 4-byte length, then the whole-block
      ciphertext of the padded password. */
  lemma RawLayout(c: Cipher, iv: seq<byte>, pw: seq<byte>)
    requires |iv| == BLOCK_SIZE && |pw| < TWO_31 && Inverts(c, iv, pw + Padding(|pw|))
    ensures RawPassword(c, iv, pw).Some?
    ensures var raw := RawPassword(c, iv, pw).value;
      && raw[..BLOCK_SIZE] == iv
      && raw[BLOCK_SIZE..BLOCK_SIZE + INT_SIZE] == PackInt(|pw|).value
      && raw[BLOCK_SIZE + INT_SIZE..] == c.encrypt(iv, pw + Padding(|pw|))
      && (|raw| - BLOCK_SIZE - INT_SIZE) % BLOCK_SIZE == 0
  {
    PaddingSpec(|pw|);
    var blen := PackInt(|pw|).value;
    var ct := c.encrypt(iv, pw + Padding(|pw|));
    var raw := iv + blen + ct;
    assert raw[..8] == iv && raw[8..12] == blen && raw[12..] == ct;
  }

  /** Round trip: with a cipher that inverts and a base64 that decodes what it encodes,
      decrypting the stored password gives back the password. */
  lemma DecryptEncrypt(c: Cipher, b64: Base64, iv: seq<byte>, pw: seq<byte>)
    requires |iv| == BLOCK_SIZE && |pw| < TWO_31 && Inverts(c, iv, pw + Padding(|pw|))
    requires RawPassword(c, iv, pw).Some? && DecodesBack(b64, RawPassword(c, iv, pw).value)
    ensures Encrypt(c, b64, iv, pw).Some?
    ensures Decrypt(c, b64, Encrypt(c, b64, iv, pw).value) == Some(pw)
  {
    RawLayout(c, iv, pw);
    PaddingSpec(|pw|);
    UnpackPack(|pw|);
    var raw := RawPassword(c, iv, pw).value;
    assert Slice(raw, 0, BLOCK_SIZE) == raw[..BLOCK_SIZE];
    assert Slice(raw, BLOCK_SIZE, BLOCK_SIZE + INT_SIZE) == raw[BLOCK_SIZE..BLOCK_SIZE + INT_SIZE];
    assert Slice(raw, BLOCK_SIZE + INT_SIZE, |raw|) == raw[BLOCK_SIZE + INT_SIZE..];
    var m := pw + Padding(|pw|);
    assert Prefix(m, |pw|) == pw;
  }

  /** `_check` of an encrypted password accepts exactly that password. */
  lemma CheckEncrypted(c: Cipher, b64: Base64, iv: seq<byte>, pw: seq<byte>, guess: seq<byte>)
    requires |iv| == BLOCK_SIZE && |pw| < TWO_31 && Inverts(c, iv, pw + Padding(|pw|))
    requires RawPassword(c, iv, pw).Some? && DecodesBack(b64, RawPassword(c, iv, pw).value)
    ensures Encrypt(c, b64, iv, pw).Some?
    ensures Check(c, b64, Encrypt(c, b64, iv, pw).value, guess) == Some(guess == pw)
  {
    DecryptEncrypt(c, b64, iv, pw);
  }
}
