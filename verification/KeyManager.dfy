/** The key hierarchy of the address manager (waddrmgr/manager.go, with the put and fetch
    functions of waddrmgr/db.go): passphrases protect master keys, master keys protect the
    crypto keys, crypto keys protect the wallet's data. */
module KeyManager {
  import opened Wrappers
  import opened Bytes
  import opened SecretKeys

  /** The main bucket: parameters of the master keys and the encrypted crypto keys. */
  datatype Disk = Disk(
    pubParams: seq<byte>,
    privParams: seq<byte>,
    pubEnc: Cipher,
    privEnc: Cipher,
    scriptEnc: Cipher,
    seedEnc: Cipher,
    watching: bool)

  datatype SecretKey = SecretKey(key: seq<byte>, params: Params)

  /** The manager's fields. */
  datatype Memory = Memory(
    watching: bool,
    locked: bool,
    masterPub: SecretKey,
    masterPriv: SecretKey,
    keyPub: seq<byte>,
    keyPriv: seq<byte>,
    keySeed: seq<byte>,
    keyScript: seq<byte>,
    privEnc: Cipher,
    seedEnc: Cipher,
    scriptEnc: Cipher,
    salt: seq<byte>,
    hashed: seq<byte>)

  datatype KeyType = CKTPrivate | CKTSeed | CKTScript | CKTPublic

  datatype Error = WrongPassphrase | CryptoError | Locked | WatchingOnly | DatabaseError

  datatype Outcome = Outcome(disk: Disk, mem: Memory, error: Option<Error>)

  /** The random values one operation draws, whether drawing them succeeds, and whether the
      database stores what it is given. */
  datatype Fresh = Fresh(keySalt: seq<byte>, passSalt: seq<byte>,
                         nonce1: seq<byte>, nonce2: seq<byte>, nonce3: seq<byte>,
                         drawn: bool, stored: bool)

  datatype Config = Config(n: int, r: int, p: int)

  // ----- the operations as functions -----

  /** The unconditional part of locking. */
  function Zeroed(m: Memory): Memory {
    m.(keyScript := Zeros(32), keyPriv := Zeros(32), keySeed := Zeros(32),
       masterPriv := m.masterPriv.(key := Zeros(32)), hashed := Zeros(64), locked := true)
  }

  /** append(salt[:], pass...) shares the salt's memory when pass is empty, and the wiping of
      the salted passphrase then wipes the salt itself. */
  function SaltAfterHashing(salt: seq<byte>, pass: seq<byte>): seq<byte> {
    if pass == [] then Zeros(|salt|) else salt
  }

  function AfterLock(d: Disk, m: Memory): Outcome {
    if m.watching then Outcome(d, m, Some(WatchingOnly))
    else if m.locked then Outcome(d, m, Some(Locked))
    else Outcome(d, Zeroed(m), None)
  }

  function AfterUnlock(c: Crypto, d: Disk, m: Memory, pass: seq<byte>): Outcome {
    if m.watching then Outcome(d, m, Some(WatchingOnly))
    else if !m.locked then
      var m' := m.(salt := SaltAfterHashing(m.salt, pass));
      if c.hash(m.salt + pass) != m.hashed then Outcome(d, Zeroed(m'), Some(WrongPassphrase))
      else Outcome(d, m', None)
    else
      match DeriveRaw(c, m.masterPriv.params, pass)
      case None => Outcome(d, Zeroed(m), Some(CryptoError))
      case Some(key) =>
        if c.digest(key) != m.masterPriv.params.digest then Outcome(d, Zeroed(m), Some(WrongPassphrase))
        else
          match (Open(key, m.privEnc), Open(key, m.seedEnc))
          case (Some(priv), Some(seed)) =>
            Outcome(d,
                    m.(masterPriv := m.masterPriv.(key := key),
                       keyPriv := CopyKey(m.keyPriv, priv), keySeed := CopyKey(m.keySeed, seed),
                       locked := false, hashed := c.hash(m.salt + pass),
                       salt := SaltAfterHashing(m.salt, pass)),
                    None)
          case _ => Outcome(d, Zeroed(m), Some(CryptoError))
  }

  /** The crypto keys sealed again under a new master key, in the bucket and in memory. */
  function Rekeyed(c: Crypto, d: Disk, m: Memory, master: SecretKey, priv: seq<byte>, seed: seq<byte>,
                   script: seq<byte>, new': seq<byte>, f: Fresh): Outcome
  {
    var encPriv := Sealed(master.key, f.nonce1, priv);
    var encSeed := Sealed(master.key, f.nonce2, seed);
    var encScript := Sealed(master.key, f.nonce3, script);
    Outcome(d.(privEnc := encPriv, scriptEnc := encScript, seedEnc := encSeed,
               privParams := Marshalled(master.params)),
            m.(seedEnc := CopyCipher(m.seedEnc, encSeed),
               privEnc := CopyCipher(m.privEnc, encPriv),
               scriptEnc := CopyCipher(m.scriptEnc, encScript),
               masterPriv := if m.locked then master.(key := Zeros(32)) else master,
               salt := if m.locked then f.passSalt else SaltAfterHashing(f.passSalt, new'),
               hashed := if m.locked then Zeros(64) else c.hash(f.passSalt + new')),
            None)
  }

  function NewMaster(c: Crypto, key: seq<byte>, config: Config, f: Fresh): SecretKey {
    SecretKey(key, NewParams(c, key, f.keySalt, config.n, config.r, config.p))
  }

  function AfterChangePrivate(c: Crypto, d: Disk, m: Memory, old': seq<byte>, new': seq<byte>,
                              config: Config, f: Fresh): Outcome
  {
    if m.watching then Outcome(d, m, Some(WatchingOnly))
    else
      match DeriveRaw(c, m.masterPriv.params, old')
      case None => Outcome(d, m, Some(CryptoError))
      case Some(key) =>
        if c.digest(key) != m.masterPriv.params.digest then Outcome(d, m, Some(WrongPassphrase))
        else if !f.drawn then Outcome(d, m, Some(CryptoError))
        else
          match c.kdf(new', f.keySalt, config.n, config.r, config.p)
          case None => Outcome(d, m, Some(CryptoError))
          case Some(newKey) =>
            match (Open(key, m.privEnc), Open(key, m.seedEnc), Open(key, m.scriptEnc))
            case (Some(priv), Some(seed), Some(script)) =>
              if !f.stored then Outcome(d, m, Some(DatabaseError))
              else Rekeyed(c, d, m, NewMaster(c, newKey, config, f), priv, seed, script, new', f)
            case _ => Outcome(d, m, Some(CryptoError))
  }

  function AfterChangePublic(c: Crypto, d: Disk, m: Memory, old': seq<byte>, new': seq<byte>,
                             config: Config, f: Fresh): Outcome
  {
    match DeriveRaw(c, m.masterPub.params, old')
    case None => Outcome(d, m, Some(CryptoError))
    case Some(key) =>
      if c.digest(key) != m.masterPub.params.digest then Outcome(d, m, Some(WrongPassphrase))
      else if !f.drawn then Outcome(d, m, Some(CryptoError))
      else
        match c.kdf(new', f.keySalt, config.n, config.r, config.p)
        case None => Outcome(d, m, Some(CryptoError))
        case Some(newKey) =>
          var master := NewMaster(c, newKey, config, f);
          if !f.stored then Outcome(d, m, Some(DatabaseError))
          else
            Outcome(d.(pubEnc := Sealed(newKey, f.nonce1, m.keyPub), pubParams := Marshalled(master.params)),
                    m.(masterPub := master),
                    None)
  }

  const NO_PARAMS := Params(Zeros(32), Zeros(32), 0, 0, 0)

  /** The private parameters as loadManager sets them: a watching-only manager has none. */
  function PrivateParams(d: Disk): Option<Params> {
    if d.watching then Some(NO_PARAMS) else Unmarshalled(d.privParams)
  }

  /** loadManager: a new, locked manager from the database and the public passphrase. */
  function Load(c: Crypto, d: Disk, pubPass: seq<byte>, f: Fresh): Result<Memory, Error> {
    match (PrivateParams(d), Unmarshalled(d.pubParams))
    case (Some(privParams), Some(pubParams)) =>
      (match Derive(c, pubParams, pubPass)
       case None => Err(WrongPassphrase)
       case Some(key) =>
         match Open(key, d.pubEnc)
         case None => Err(CryptoError)
         case Some(pub) =>
           if !f.drawn then Err(CryptoError)
           else
             Ok(Memory(d.watching, true, SecretKey(key, pubParams), SecretKey(Zeros(32), privParams),
                       CopyKey(Zeros(32), pub), Zeros(32), Zeros(32), Zeros(32),
                       d.privEnc, d.seedEnc, d.scriptEnc, f.passSalt, Zeros(64))))
    case _ => Err(CryptoError)
  }

  function AfterReopen(c: Crypto, d: Disk, m: Memory, pubPass: seq<byte>, f: Fresh): Outcome {
    match Load(c, d, pubPass, f)
    case Err(error) => Outcome(d, m, Some(error))
    case Ok(m') => Outcome(d, m', None)
  }

  /** selectCryptoKey: the private keys are only available while unlocked. */
  function SelectKey(m: Memory, t: KeyType): Option<seq<byte>> {
    if !t.CKTPublic? && (m.locked || m.watching) then None
    else
      match t
      case CKTPrivate => Some(m.keyPriv)
      case CKTSeed => Some(m.keySeed)
      case CKTScript => Some(m.keyScript)
      case CKTPublic => Some(m.keyPub)
  }

  function Encrypt(m: Memory, t: KeyType, plain: seq<byte>, nonce: seq<byte>): Option<Cipher> {
    match SelectKey(m, t)
    case None => None
    case Some(key) => Some(Sealed(key, nonce, plain))
  }

  function Decrypt(m: Memory, t: KeyType, cipher: Cipher): Option<seq<byte>> {
    match SelectKey(m, t)
    case None => None
    case Some(key) => Open(key, cipher)
  }

  // ----- the operations as the program runs them -----

  /** The main bucket. A nil argument of the put functions leaves its entry alone. */
  class MainBucket {
    var pubParams: seq<byte>
    var privParams: seq<byte>
    var pubEnc: Cipher
    var privEnc: Cipher
    var scriptEnc: Cipher
    var seedEnc: Cipher
    const watching: bool

    function Data(): Disk
      reads this
    {
      Disk(pubParams, privParams, pubEnc, privEnc, scriptEnc, seedEnc, watching)
    }

    constructor (d: Disk)
      ensures Data() == d
    {
      pubParams, privParams, watching := d.pubParams, d.privParams, d.watching;
      pubEnc, privEnc, scriptEnc, seedEnc := d.pubEnc, d.privEnc, d.scriptEnc, d.seedEnc;
    }

    method PutMasterKeyParams(pub: Option<seq<byte>>, priv: Option<seq<byte>>)
      modifies this`pubParams, this`privParams
      ensures pubParams == if pub.Some? then pub.value else old(pubParams)
      ensures privParams == if priv.Some? then priv.value else old(privParams)
    {
      if priv.Some? {
        privParams := priv.value;
      }
      if pub.Some? {
        pubParams := pub.value;
      }
    }

    method PutCryptoKeys(pub: Option<Cipher>, priv: Option<Cipher>, script: Option<Cipher>, seed: Option<Cipher>)
      modifies this`pubEnc, this`privEnc, this`scriptEnc, this`seedEnc
      ensures pubEnc == if pub.Some? then pub.value else old(pubEnc)
      ensures privEnc == if priv.Some? then priv.value else old(privEnc)
      ensures scriptEnc == if script.Some? then script.value else old(scriptEnc)
      ensures seedEnc == if seed.Some? then seed.value else old(seedEnc)
    {
      if pub.Some? {
        pubEnc := pub.value;
      }
      if priv.Some? {
        privEnc := priv.value;
      }
      if script.Some? {
        scriptEnc := script.value;
      }
      if seed.Some? {
        seedEnc := seed.value;
      }
    }
  }

  class Manager {
    const crypto: Crypto
    const bucket: MainBucket
    const watching: bool
    var locked: bool
    var masterPub: SecretKey
    var masterPriv: SecretKey
    var keyPub: seq<byte>
    var keyPriv: seq<byte>
    var keySeed: seq<byte>
    var keyScript: seq<byte>
    var privEnc: Cipher
    var seedEnc: Cipher
    var scriptEnc: Cipher
    var salt: seq<byte>
    var hashed: seq<byte>

    function Mem(): Memory
      reads this
    {
      Memory(watching, locked, masterPub, masterPriv, keyPub, keyPriv, keySeed, keyScript,
             privEnc, seedEnc, scriptEnc, salt, hashed)
    }

    constructor (crypto: Crypto, bucket: MainBucket, m: Memory)
      ensures this.crypto == crypto && this.bucket == bucket && Mem() == m
    {
      this.crypto, this.bucket := crypto, bucket;
      watching, locked, masterPub, masterPriv := m.watching, m.locked, m.masterPub, m.masterPriv;
      keyPub, keyPriv, keySeed, keyScript := m.keyPub, m.keyPriv, m.keySeed, m.keyScript;
      privEnc, seedEnc, scriptEnc := m.privEnc, m.seedEnc, m.scriptEnc;
      salt, hashed := m.salt, m.hashed;
    }

    method Wipe()
      modifies this
      ensures Mem() == Zeroed(old(Mem()))
    {
      keyScript := Zeros(32);
      keyPriv := Zeros(32);
      keySeed := Zeros(32);
      masterPriv := masterPriv.(key := Zeros(32));
      hashed := Zeros(64);
      locked := true;
    }

    method Lock() returns (error: Option<Error>)
      modifies this
      ensures Outcome(bucket.Data(), Mem(), error) == AfterLock(old(bucket.Data()), old(Mem()))
    {
      if watching {
        return Some(WatchingOnly);
      }
      if locked {
        return Some(Locked);
      }
      Wipe();
      error := None;
    }

    /** Hashes the salted passphrase and wipes it, which is the salt itself if the passphrase
        is empty. */
    method HashPassphrase(pass: seq<byte>) returns (h: seq<byte>)
      modifies this`salt
      ensures h == crypto.hash(old(salt) + pass)
      ensures salt == SaltAfterHashing(old(salt), pass)
    {
      h := crypto.hash(salt + pass);
      if pass == [] {
        salt := Zeros(|salt|);
      }
    }

    method Unlock(pass: seq<byte>) returns (error: Option<Error>)
      modifies this
      ensures Outcome(bucket.Data(), Mem(), error) == AfterUnlock(crypto, old(bucket.Data()), old(Mem()), pass)
    {
      if watching {
        return Some(WatchingOnly);
      }
      if !locked {
        var h := HashPassphrase(pass);
        if h != hashed {
          Wipe();
          return Some(WrongPassphrase);
        }
        return None;
      }
      error := DecryptKeys(pass);
    }

    /** Unlocking a locked manager: any failure wipes what was derived so far. */
    method DecryptKeys(pass: seq<byte>) returns (error: Option<Error>)
      requires locked && !watching
      modifies this
      ensures Outcome(bucket.Data(), Mem(), error) == AfterUnlock(crypto, old(bucket.Data()), old(Mem()), pass)
    {
      var key := DeriveRaw(crypto, masterPriv.params, pass);
      if key.None? {
        Wipe();
        return Some(CryptoError);
      }
      masterPriv := masterPriv.(key := key.value);
      if crypto.digest(key.value) != masterPriv.params.digest {
        Wipe();
        return Some(WrongPassphrase);
      }
      error := FinishUnlock(pass);
    }

    /** The part of unlocking that comes after the master key is known to be right. */
    method FinishUnlock(pass: seq<byte>) returns (error: Option<Error>)
      modifies this
      ensures var m := old(Mem());
              var key := m.masterPriv.key;
              if Open(key, m.privEnc).Some? && Open(key, m.seedEnc).Some?
              then error == None
                   && Mem() == m.(keyPriv := CopyKey(m.keyPriv, Open(key, m.privEnc).value),
                                  keySeed := CopyKey(m.keySeed, Open(key, m.seedEnc).value),
                                  locked := false, hashed := crypto.hash(m.salt + pass),
                                  salt := SaltAfterHashing(m.salt, pass))
              else error == Some(CryptoError) && Mem() == Zeroed(m)
    {
      var ok := OpenKeys();
      if !ok {
        Wipe();
        return Some(CryptoError);
      }
      locked := false;
      hashed := HashPassphrase(pass);
      error := None;
    }

    /** The crypto keys, decrypted with the master key one after the other. */
    method OpenKeys() returns (ok: bool)
      modifies this`keyPriv, this`keySeed
      ensures ok <==> Open(masterPriv.key, privEnc).Some? && Open(masterPriv.key, seedEnc).Some?
      ensures ok ==> keyPriv == CopyKey(old(keyPriv), Open(masterPriv.key, privEnc).value)
                     && keySeed == CopyKey(old(keySeed), Open(masterPriv.key, seedEnc).value)
    {
      var priv := Open(masterPriv.key, privEnc);
      if priv.None? {
        return false;
      }
      keyPriv := CopyKey(keyPriv, priv.value);
      var seed := Open(masterPriv.key, seedEnc);
      if seed.None? {
        return false;
      }
      keySeed := CopyKey(keySeed, seed.value);
      ok := true;
    }

    method ChangePrivatePassphrase(old': seq<byte>, new': seq<byte>, config: Config, f: Fresh)
        returns (error: Option<Error>)
      modifies this, bucket
      ensures Outcome(bucket.Data(), Mem(), error)
              == AfterChangePrivate(crypto, old(bucket.Data()), old(Mem()), old', new', config, f)
    {
      if watching {
        return Some(WatchingOnly);
      }
      var key := DeriveRaw(crypto, masterPriv.params, old');
      if key.None? {
        return Some(CryptoError);
      }
      if crypto.digest(key.value) != masterPriv.params.digest {
        return Some(WrongPassphrase);
      }
      if !f.drawn {
        return Some(CryptoError);
      }
      var newKey := crypto.kdf(new', f.keySalt, config.n, config.r, config.p);
      if newKey.None? {
        return Some(CryptoError);
      }
      var priv, seed, script := Open(key.value, privEnc), Open(key.value, seedEnc), Open(key.value, scriptEnc);
      if priv.None? || seed.None? || script.None? {
        return Some(CryptoError);
      }
      if !f.stored {
        return Some(DatabaseError);
      }
      Rekey(NewMaster(crypto, newKey.value, config, f), priv.value, seed.value, script.value, new', f);
      error := None;
    }

    method Rekey(master: SecretKey, priv: seq<byte>, seed: seq<byte>, script: seq<byte>, new': seq<byte>, f: Fresh)
      modifies this, bucket
      ensures bucket.Data() == Rekeyed(crypto, old(bucket.Data()), old(Mem()), master, priv, seed, script, new', f).disk
      ensures Mem() == Rekeyed(crypto, old(bucket.Data()), old(Mem()), master, priv, seed, script, new', f).mem
    {
      var encPriv := Sealed(master.key, f.nonce1, priv);
      var encSeed := Sealed(master.key, f.nonce2, seed);
      var encScript := Sealed(master.key, f.nonce3, script);
      bucket.PutCryptoKeys(None, Some(encPriv), Some(encScript), Some(encSeed));
      bucket.PutMasterKeyParams(None, Some(Marshalled(master.params)));
      Adopt(master, encPriv, encSeed, encScript, new', f.passSalt);
    }

    /** Now that the database is updated: the new ciphertexts and the new master key, which is
        wiped at once if the manager is locked. */
    method Adopt(master: SecretKey, encPriv: Cipher, encSeed: Cipher, encScript: Cipher,
                 new': seq<byte>, freshSalt: seq<byte>)
      modifies this
      ensures Mem() == old(Mem()).(
                seedEnc := CopyCipher(old(seedEnc), encSeed),
                privEnc := CopyCipher(old(privEnc), encPriv),
                scriptEnc := CopyCipher(old(scriptEnc), encScript),
                masterPriv := if old(locked) then master.(key := Zeros(32)) else master,
                salt := if old(locked) then freshSalt else SaltAfterHashing(freshSalt, new'),
                hashed := if old(locked) then Zeros(64) else crypto.hash(freshSalt + new'))
    {
      seedEnc := CopyCipher(seedEnc, encSeed);
      privEnc := CopyCipher(privEnc, encPriv);
      scriptEnc := CopyCipher(scriptEnc, encScript);
      masterPriv := master;
      salt := freshSalt;
      hashed := Zeros(64);
      if locked {
        masterPriv := masterPriv.(key := Zeros(32));
      } else {
        hashed := HashPassphrase(new');
      }
    }

    method ChangePublicPassphrase(old': seq<byte>, new': seq<byte>, config: Config, f: Fresh)
        returns (error: Option<Error>)
      modifies this, bucket
      ensures Outcome(bucket.Data(), Mem(), error)
              == AfterChangePublic(crypto, old(bucket.Data()), old(Mem()), old', new', config, f)
    {
      var key := DeriveRaw(crypto, masterPub.params, old');
      if key.None? {
        return Some(CryptoError);
      }
      if crypto.digest(key.value) != masterPub.params.digest {
        return Some(WrongPassphrase);
      }
      if !f.drawn {
        return Some(CryptoError);
      }
      var newKey := crypto.kdf(new', f.keySalt, config.n, config.r, config.p);
      if newKey.None? {
        return Some(CryptoError);
      }
      var newMaster := NewMaster(crypto, newKey.value, config, f);
      if !f.stored {
        return Some(DatabaseError);
      }
      bucket.PutCryptoKeys(Some(Sealed(newMaster.key, f.nonce1, keyPub)), None, None, None);
      bucket.PutMasterKeyParams(Some(Marshalled(newMaster.params)), None);
      masterPub := newMaster;
      error := None;
    }
  }

  /** loadManager. */
  method LoadManager(crypto: Crypto, bucket: MainBucket, pubPass: seq<byte>, f: Fresh) returns (r: Result<Memory, Error>)
    ensures r == Load(crypto, bucket.Data(), pubPass, f)
  {
    var privParams := Some(NO_PARAMS);
    if !bucket.watching {
      privParams := Unmarshalled(bucket.privParams);
      if privParams.None? {
        return Err(CryptoError);
      }
    }
    var pubParams := Unmarshalled(bucket.pubParams);
    if pubParams.None? {
      return Err(CryptoError);
    }
    var key := Derive(crypto, pubParams.value, pubPass);
    if key.None? {
      return Err(WrongPassphrase);
    }
    var pub := Open(key.value, bucket.pubEnc);
    if pub.None? || !f.drawn {
      return Err(CryptoError);
    }
    r := Ok(Memory(bucket.watching, true, SecretKey(key.value, pubParams.value), SecretKey(Zeros(32), privParams.value),
                     CopyKey(Zeros(32), pub.value), Zeros(32), Zeros(32), Zeros(32),
                     bucket.privEnc, bucket.seedEnc, bucket.scriptEnc, f.passSalt, Zeros(64)));
  }

  // ----- what every sequence of operations keeps -----

  /** The crypto keys drawn when the wallet was created. */
  datatype Keys = Keys(pub: seq<byte>, priv: seq<byte>, seed: seq<byte>, script: seq<byte>)

  /** The two passphrases in force. */
  datatype Passphrases = Passphrases(priv: seq<byte>, pub: seq<byte>)

  ghost predicate OpensTo(cipher: Cipher, key: seq<byte>, plain: seq<byte>) {
    cipher.Sealed? && cipher.key == key && cipher.plain == plain && |plain| == 32
  }

  /** A passphrase derives the key the parameters were made for. */
  ghost predicate DerivesKey(c: Crypto, p: Params, pass: seq<byte>, key: seq<byte>) {
    ValidParams(p) && DeriveRaw(c, p, pass) == Some(key) && c.digest(key) == p.digest && |key| == 32
  }

  /** The private half: database and memory hold the private keys under the key that the
      current passphrase derives; locked, memory holds only zeros. */
  ghost predicate PrivateHalf(c: Crypto, d: Disk, m: Memory, keys: Keys, pass: seq<byte>) {
    var p := m.masterPriv.params;
    && DeriveRaw(c, p, pass).Some?
    && var key := DeriveRaw(c, p, pass).value;
    && DerivesKey(c, p, pass, key)
    && d.privParams == Marshalled(p)
    && OpensTo(d.privEnc, key, keys.priv) && OpensTo(d.seedEnc, key, keys.seed)
    && OpensTo(d.scriptEnc, key, keys.script)
    && m.privEnc == d.privEnc && m.seedEnc == d.seedEnc && m.scriptEnc == d.scriptEnc
    && m.keyScript == Zeros(32) && |m.salt| == 32
    && (if m.locked
        then m.keyPriv == Zeros(32) && m.keySeed == Zeros(32) && m.masterPriv.key == Zeros(32) && m.hashed == Zeros(64)
        else m.keyPriv == keys.priv && m.keySeed == keys.seed && m.masterPriv.key == key)
  }

  /** The public half: the public key is always in memory. */
  ghost predicate PublicHalf(c: Crypto, d: Disk, m: Memory, keys: Keys, pass: seq<byte>) {
    var p := m.masterPub.params;
    && DerivesKey(c, p, pass, m.masterPub.key)
    && d.pubParams == Marshalled(p)
    && OpensTo(d.pubEnc, m.masterPub.key, keys.pub)
    && m.keyPub == keys.pub
  }

  ghost predicate Inv(c: Crypto, d: Disk, m: Memory, keys: Keys, pass: Passphrases) {
    Lawful(c) && !d.watching && !m.watching && PrivateHalf(c, d, m, keys, pass.priv) && PublicHalf(c, d, m, keys, pass.pub)
  }

  /** Create: draws the crypto keys and seals them under keys for the two passphrases. */
  function Create(c: Crypto, pubPass: seq<byte>, privPass: seq<byte>, config: Config, keys: Keys,
                  pubFresh: Fresh, privFresh: Fresh): Option<Disk>
  {
    if privPass == [] || !pubFresh.drawn || !privFresh.drawn || !pubFresh.stored || !privFresh.stored then None
    else
      match (c.kdf(pubPass, pubFresh.keySalt, config.n, config.r, config.p),
             c.kdf(privPass, privFresh.keySalt, config.n, config.r, config.p))
      case (Some(pubKey), Some(privKey)) =>
        Some(Disk(Marshalled(NewMaster(c, pubKey, config, pubFresh).params),
                  Marshalled(NewMaster(c, privKey, config, privFresh).params),
                  Sealed(pubKey, pubFresh.nonce1, keys.pub),
                  Sealed(privKey, privFresh.nonce1, keys.priv),
                  Sealed(privKey, privFresh.nonce2, keys.script),
                  Sealed(privKey, privFresh.nonce3, keys.seed),
                  false))
      case _ => None
  }

  /** A wallet just created opens with its public passphrase, and what every run keeps holds. */
  lemma CreatedWalletOpens(c: Crypto, pubPass: seq<byte>, privPass: seq<byte>, config: Config, keys: Keys,
                           pubFresh: Fresh, privFresh: Fresh, openFresh: Fresh)
    requires Lawful(c) && Create(c, pubPass, privPass, config, keys, pubFresh, privFresh).Some?
    requires |keys.pub| == 32 && |keys.priv| == 32 && |keys.seed| == 32 && |keys.script| == 32
    requires |pubFresh.keySalt| == 32 && |privFresh.keySalt| == 32 && |openFresh.passSalt| == 32 && openFresh.drawn
    requires IsInt64(config.n) && IsInt64(config.r) && IsInt64(config.p)
    ensures var d := Create(c, pubPass, privPass, config, keys, pubFresh, privFresh).value;
            var m := Load(c, d, pubPass, openFresh);
            m.Ok? && m.value.locked && Inv(c, d, m.value, keys, Passphrases(privPass, pubPass))
  {
    var pubKey := c.kdf(pubPass, pubFresh.keySalt, config.n, config.r, config.p).value;
    var privKey := c.kdf(privPass, privFresh.keySalt, config.n, config.r, config.p).value;
    MarshalRoundTrip(NewMaster(c, pubKey, config, pubFresh).params);
    MarshalRoundTrip(NewMaster(c, privKey, config, privFresh).params);
    assert CopyKey(Zeros(32), keys.pub) == keys.pub;
  }

  datatype Op =
    | LockOp
    | UnlockOp(pass: seq<byte>)
    | ChangePrivateOp(old': seq<byte>, new': seq<byte>, config: Config, fresh': Fresh)
    | ChangePublicOp(old': seq<byte>, new': seq<byte>, config: Config, fresh': Fresh)
    | ReopenOp(pubPass: seq<byte>, fresh': Fresh)

  /** What the random generator and the caller's types guarantee. */
  ghost predicate ValidOp(op: Op) {
    match op
    case LockOp => true
    case UnlockOp(_) => true
    case ChangePrivateOp(_, _, config, f) =>
      |f.keySalt| == 32 && |f.passSalt| == 32 && IsInt64(config.n) && IsInt64(config.r) && IsInt64(config.p)
    case ChangePublicOp(_, _, config, f) =>
      |f.keySalt| == 32 && IsInt64(config.n) && IsInt64(config.r) && IsInt64(config.p)
    case ReopenOp(_, f) => |f.passSalt| == 32
  }

  function Apply(c: Crypto, d: Disk, m: Memory, op: Op): Outcome {
    match op
    case LockOp => AfterLock(d, m)
    case UnlockOp(pass) => AfterUnlock(c, d, m, pass)
    case ChangePrivateOp(old', new', config, f) => AfterChangePrivate(c, d, m, old', new', config, f)
    case ChangePublicOp(old', new', config, f) => AfterChangePublic(c, d, m, old', new', config, f)
    case ReopenOp(pubPass, f) => AfterReopen(c, d, m, pubPass, f)
  }

  /** A passphrase changes exactly when an operation that changes it succeeds. */
  function PassAfter(c: Crypto, d: Disk, m: Memory, op: Op, pass: Passphrases): Passphrases {
    if Apply(c, d, m, op).error.Some? then pass
    else if op.ChangePrivateOp? then pass.(priv := op.new')
    else if op.ChangePublicOp? then pass.(pub := op.new')
    else pass
  }

  lemma UnlockKeeps(c: Crypto, d: Disk, m: Memory, keys: Keys, pass: Passphrases, try: seq<byte>)
    requires Inv(c, d, m, keys, pass)
    ensures var r := AfterUnlock(c, d, m, try); Inv(c, r.disk, r.mem, keys, pass)
  {
    var r := AfterUnlock(c, d, m, try);
    if m.locked && r.error.None? {
      assert CopyKey(m.keyPriv, keys.priv) == keys.priv;
      assert CopyKey(m.keySeed, keys.seed) == keys.seed;
    }
  }

  lemma ChangePrivateKeeps(c: Crypto, d: Disk, m: Memory, keys: Keys, pass: Passphrases, op: Op)
    requires Inv(c, d, m, keys, pass) && op.ChangePrivateOp? && ValidOp(op)
    ensures var r := Apply(c, d, m, op); Inv(c, r.disk, r.mem, keys, PassAfter(c, d, m, op, pass))
  {
    var r := Apply(c, d, m, op);
    if r.error.None? {
      var key := DeriveRaw(c, m.masterPriv.params, pass.priv).value;
      var newKey := c.kdf(op.new', op.fresh'.keySalt, op.config.n, op.config.r, op.config.p).value;
      assert m.privEnc.key == key;
      assert Open(key, m.privEnc) == Some(keys.priv);
      NewKeyDerives(c, op.new', op.fresh'.keySalt, op.config.n, op.config.r, op.config.p);
      assert DeriveRaw(c, r.mem.masterPriv.params, op.new') == Some(newKey);
      assert OpensTo(r.disk.privEnc, newKey, keys.priv);
      assert OpensTo(r.disk.seedEnc, newKey, keys.seed);
      assert OpensTo(r.disk.scriptEnc, newKey, keys.script);
    }
  }

  lemma ReopenKeeps(c: Crypto, d: Disk, m: Memory, keys: Keys, pass: Passphrases, op: Op)
    requires Inv(c, d, m, keys, pass) && op.ReopenOp? && ValidOp(op)
    ensures var r := Apply(c, d, m, op);
            r.error.None? ==> DeriveRaw(c, m.masterPub.params, op.pubPass) == Some(m.masterPub.key)
    ensures var r := Apply(c, d, m, op); Inv(c, r.disk, r.mem, keys, pass)
  {
    var r := Apply(c, d, m, op);
    MarshalRoundTrip(m.masterPriv.params);
    MarshalRoundTrip(m.masterPub.params);
    if r.error.None? {
      assert CopyKey(Zeros(32), keys.pub) == keys.pub;
    }
  }

  lemma StepKeeps(c: Crypto, d: Disk, m: Memory, keys: Keys, pass: Passphrases, op: Op)
    requires Inv(c, d, m, keys, pass) && ValidOp(op)
    ensures var r := Apply(c, d, m, op); Inv(c, r.disk, r.mem, keys, PassAfter(c, d, m, op, pass))
  {
    match op {
      case LockOp =>
      case UnlockOp(try) => UnlockKeeps(c, d, m, keys, pass, try);
      case ChangePrivateOp(_, _, _, _) => ChangePrivateKeeps(c, d, m, keys, pass, op);
      case ChangePublicOp(_, _, _, _) =>
      case ReopenOp(_, _) => ReopenKeeps(c, d, m, keys, pass, op);
    }
  }

  function Run(c: Crypto, d: Disk, m: Memory, ops: seq<Op>): Outcome
    decreases |ops|
  {
    if ops == [] then Outcome(d, m, None)
    else
      var r := Apply(c, d, m, ops[0]);
      Run(c, r.disk, r.mem, ops[1..])
  }

  /** The passphrases in force after a run. */
  function PassAfterRun(c: Crypto, d: Disk, m: Memory, ops: seq<Op>, pass: Passphrases): Passphrases
    decreases |ops|
  {
    if ops == [] then pass
    else
      var r := Apply(c, d, m, ops[0]);
      PassAfterRun(c, r.disk, r.mem, ops[1..], PassAfter(c, d, m, ops[0], pass))
  }

  lemma {:induction false} RunKeeps(c: Crypto, d: Disk, m: Memory, keys: Keys, pass: Passphrases, ops: seq<Op>)
    requires Inv(c, d, m, keys, pass)
    requires forall op <- ops :: ValidOp(op)
    ensures var r := Run(c, d, m, ops); Inv(c, r.disk, r.mem, keys, PassAfterRun(c, d, m, ops, pass))
    decreases |ops|
  {
    if ops != [] {
      StepKeeps(c, d, m, keys, pass, ops[0]);
      var r := Apply(c, d, m, ops[0]);
      RunKeeps(c, r.disk, r.mem, keys, PassAfter(c, d, m, ops[0], pass), ops[1..]);
    }
  }

  /** Unlocks from whatever state, locking first if need be. */
  function LockThenUnlock(c: Crypto, d: Disk, m: Memory, pass: seq<byte>): Outcome {
    if m.locked then AfterUnlock(c, d, m, pass) else AfterUnlock(c, d, AfterLock(d, m).mem, pass)
  }

  /** What the invariant gives at any one moment. */
  lemma KeysAreReachable(c: Crypto, d: Disk, m: Memory, keys: Keys, pass: Passphrases, f: Fresh)
    requires Inv(c, d, m, keys, pass) && f.drawn
    ensures var u := LockThenUnlock(c, d, m, pass.priv);
            && u.error.None? && !u.mem.locked && !u.mem.watching
            && u.mem.keyPriv == keys.priv && u.mem.keySeed == keys.seed && u.mem.keyPub == keys.pub
    ensures AfterReopen(c, d, m, pass.pub, f).error.None?
  {
    var locked := if m.locked then m else Zeroed(m);
    assert CopyKey(locked.keyPriv, keys.priv) == keys.priv;
    assert CopyKey(locked.keySeed, keys.seed) == keys.seed;
    MarshalRoundTrip(m.masterPriv.params);
    MarshalRoundTrip(m.masterPub.params);
  }

  /** MAIN RESULT on the key hierarchy. After any sequence of locks, unlocks, changes of either
      passphrase and reopenings, successful or not, with whatever passphrases: unlocking with
      the private passphrase in force succeeds and restores the original crypto keys, so that
      what was encrypted under them at any time decrypts to what it was; reopening with the
      public one in force succeeds too. */
  lemma CurrentPassphraseUnlocks(c: Crypto, d: Disk, m: Memory, keys: Keys, pass: Passphrases,
                                 ops: seq<Op>, f: Fresh, nonce: seq<byte>, plain: seq<byte>)
    requires Inv(c, d, m, keys, pass) && |f.passSalt| == 32 && f.drawn
    requires forall op <- ops :: ValidOp(op)
    ensures var end := Run(c, d, m, ops);
            var now := PassAfterRun(c, d, m, ops, pass);
            var u := LockThenUnlock(c, end.disk, end.mem, now.priv);
            && u.error.None? && !u.mem.locked
            && u.mem.keyPriv == keys.priv && u.mem.keySeed == keys.seed && u.mem.keyPub == keys.pub
            && Decrypt(u.mem, CKTPrivate, Sealed(keys.priv, nonce, plain)) == Some(plain)
            && Decrypt(u.mem, CKTSeed, Sealed(keys.seed, nonce, plain)) == Some(plain)
            && Decrypt(u.mem, CKTPublic, Sealed(keys.pub, nonce, plain)) == Some(plain)
            && AfterReopen(c, end.disk, end.mem, now.pub, f).error.None?
  {
    hide Inv, LockThenUnlock, AfterReopen, Run, PassAfterRun;
    RunKeeps(c, d, m, keys, pass, ops);
    var end := Run(c, d, m, ops);
    KeysAreReachable(c, end.disk, end.mem, keys, PassAfterRun(c, d, m, ops, pass), f);
  }

  /** What is encrypted at any point of a run is encrypted under the original keys. */
  lemma EncryptsUnderOriginalKeys(c: Crypto, d: Disk, m: Memory, keys: Keys, pass: Passphrases,
                                  t: KeyType, plain: seq<byte>, nonce: seq<byte>)
    requires Inv(c, d, m, keys, pass) && !t.CKTScript?
    ensures Encrypt(m, t, plain, nonce)
            == (if t.CKTPublic? then Some(Sealed(keys.pub, nonce, plain))
                else if m.locked then None
                else Some(Sealed(if t.CKTPrivate? then keys.priv else keys.seed, nonce, plain)))
  {
  }

  /** Locked means that no private key material is left in memory. */
  lemma LockedMeansZero(c: Crypto, d: Disk, m: Memory, keys: Keys, pass: Passphrases, ops: seq<Op>)
    requires Inv(c, d, m, keys, pass)
    requires forall op <- ops :: ValidOp(op)
    ensures var end := Run(c, d, m, ops).mem;
            end.locked ==> end.keyPriv == Zeros(32) && end.keySeed == Zeros(32) && end.keyScript == Zeros(32)
                           && end.masterPriv.key == Zeros(32) && end.hashed == Zeros(64)
  {
    RunKeeps(c, d, m, keys, pass, ops);
  }

  // ----- unlocking an unlocked manager -----

  /** Among the passphrases in use, no two salted ones have the same hash, and no two derive
      keys of the same digest. */
  ghost predicate Injective(c: Crypto, used: set<seq<byte>>) {
    (forall s, t, x, y {:trigger c.hash(s + x), c.hash(t + y)} ::
       |s| == |t| == 32 && x in used && y in used && c.hash(s + x) == c.hash(t + y) ==> s + x == t + y)
    && (forall p: Params, x, y {:trigger DeriveRaw(c, p, x), DeriveRaw(c, p, y)} ::
          (x in used && y in used && DeriveRaw(c, p, x).Some? && DeriveRaw(c, p, y).Some?
           && c.digest(DeriveRaw(c, p, x).value) == c.digest(DeriveRaw(c, p, y).value)) ==> x == y)
  }

  /** The private passphrases an operation is given are among those in use. */
  ghost predicate Uses(op: Op, used: set<seq<byte>>) {
    match op
    case UnlockOp(pass) => pass in used
    case ChangePrivateOp(_, new', _, _) => new' in used
    case _ => true
  }

  /** The salt the stored hash was made with, once an operation is done. */
  function HashedSalt(c: Crypto, d: Disk, m: Memory, op: Op, s0: seq<byte>): seq<byte> {
    if Apply(c, d, m, op).error.Some? then s0
    else if op.UnlockOp? && m.locked then m.salt
    else if op.ChangePrivateOp? && !m.locked then op.fresh'.passSalt
    else s0
  }

  function HashedSaltAfterRun(c: Crypto, d: Disk, m: Memory, ops: seq<Op>, s0: seq<byte>): seq<byte>
    decreases |ops|
  {
    if ops == [] then s0
    else
      var r := Apply(c, d, m, ops[0]);
      HashedSaltAfterRun(c, r.disk, r.mem, ops[1..], HashedSalt(c, d, m, ops[0], s0))
  }

  /** While unlocked, the stored hash is that of the salt s0 and the passphrase in force; the
      salt itself is still s0, unless that passphrase is empty: then it was wiped. */
  ghost predicate HashTracks(c: Crypto, m: Memory, pass: seq<byte>, s0: seq<byte>) {
    |s0| == 32
    && (!m.locked ==> m.hashed == c.hash(s0 + pass) && m.salt == if pass == [] then Zeros(32) else s0)
  }

  /** What the shortcut accepts: the passphrase in force, and the empty one only if wiping the
      salt made no difference. */
  lemma ShortcutAccepts(c: Crypto, used: set<seq<byte>>, m: Memory, pass: seq<byte>, s0: seq<byte>, try: seq<byte>)
    requires Injective(c, used) && pass in used && try in used && HashTracks(c, m, pass, s0) && !m.locked
    ensures c.hash(m.salt + try) == m.hashed <==> try == pass && (pass == [] ==> s0 == Zeros(32))
  {
    if c.hash(m.salt + try) == m.hashed {
      assert m.salt + try == s0 + pass;
      assert (m.salt + try)[..32] == m.salt && (s0 + pass)[..32] == s0;
      assert (m.salt + try)[32..] == try && (s0 + pass)[32..] == pass;
    }
  }

  lemma StepTracksHash(c: Crypto, used: set<seq<byte>>, d: Disk, m: Memory, keys: Keys, pass: Passphrases, op: Op, s0: seq<byte>)
    requires Inv(c, d, m, keys, pass) && ValidOp(op) && Injective(c, used) && pass.priv in used && Uses(op, used) && HashTracks(c, m, pass.priv, s0)
    ensures HashTracks(c, Apply(c, d, m, op).mem, PassAfter(c, d, m, op, pass).priv, HashedSalt(c, d, m, op, s0))
    ensures PassAfter(c, d, m, op, pass).priv in used
  {
    if op.UnlockOp? {
      UnlockTracksHash(c, used, d, m, keys, pass, op.pass, s0);
    }
  }

  lemma UnlockTracksHash(c: Crypto, used: set<seq<byte>>, d: Disk, m: Memory, keys: Keys, pass: Passphrases, try: seq<byte>, s0: seq<byte>)
    requires Inv(c, d, m, keys, pass) && Injective(c, used) && pass.priv in used && try in used
    requires HashTracks(c, m, pass.priv, s0)
    ensures HashTracks(c, AfterUnlock(c, d, m, try).mem, pass.priv, HashedSalt(c, d, m, UnlockOp(try), s0))
  {
    if m.locked {
      if AfterUnlock(c, d, m, try).error.None? {
        assert DeriveRaw(c, m.masterPriv.params, pass.priv).Some?;
        assert try == pass.priv;
      }
    } else {
      ShortcutAccepts(c, used, m, pass.priv, s0, try);
    }
  }

  lemma {:induction false} RunTracksHash(c: Crypto, used: set<seq<byte>>, d: Disk, m: Memory, keys: Keys, pass: Passphrases, ops: seq<Op>, s0: seq<byte>)
    requires Inv(c, d, m, keys, pass) && Injective(c, used) && pass.priv in used && HashTracks(c, m, pass.priv, s0)
    requires forall op <- ops :: ValidOp(op) && Uses(op, used)
    ensures PassAfterRun(c, d, m, ops, pass).priv in used
    ensures HashTracks(c, Run(c, d, m, ops).mem, PassAfterRun(c, d, m, ops, pass).priv, HashedSaltAfterRun(c, d, m, ops, s0))
    decreases |ops|
  {
    if ops != [] {
      StepTracksHash(c, used, d, m, keys, pass, ops[0], s0);
      StepKeeps(c, d, m, keys, pass, ops[0]);
      var r := Apply(c, d, m, ops[0]);
      RunTracksHash(c, used, r.disk, r.mem, keys, PassAfter(c, d, m, ops[0], pass), ops[1..], HashedSalt(c, d, m, ops[0], s0));
    }
  }

  /** The parts of the manager that decide what it can decrypt. */
  ghost predicate SameKeys(m: Memory, m': Memory) {
    m.locked == m'.locked && m.keyPriv == m'.keyPriv && m.keySeed == m'.keySeed && m.keyPub == m'.keyPub
    && m.keyScript == m'.keyScript && m.masterPriv == m'.masterPriv && m.masterPub == m'.masterPub
  }

  /** MAIN RESULT on the shortcut. In every unlocked state, locking and unlocking accepts
      exactly the passphrase in force; comparing hashes accepts the same and ends with the same
      keys, unless that passphrase is empty and the salt its hash was made with was not all
      zeros: then the empty passphrase is refused and the manager locked. */
  lemma ShortcutAgrees(c: Crypto, used: set<seq<byte>>, d: Disk, m: Memory, keys: Keys, pass: Passphrases, s0: seq<byte>, try: seq<byte>)
    requires Inv(c, d, m, keys, pass) && HashTracks(c, m, pass.priv, s0) && !m.locked
    requires Injective(c, used) && pass.priv in used && try in used
    ensures var a := AfterUnlock(c, d, m, try);
            var b := LockThenUnlock(c, d, m, try);
            && (b.error.None? <==> try == pass.priv)
            && (a.error.None? <==> try == pass.priv && (pass.priv == [] ==> s0 == Zeros(32)))
            && (SameKeys(a.mem, b.mem) <==> !(try == pass.priv == [] && s0 != Zeros(32)))
            && (a.error.Some? ==> a.mem.locked)
  {
    ShortcutAccepts(c, used, m, pass.priv, s0, try);
    LockThenUnlockAccepts(c, used, d, m, keys, pass, try);
  }

  lemma LockThenUnlockAccepts(c: Crypto, used: set<seq<byte>>, d: Disk, m: Memory, keys: Keys, pass: Passphrases, try: seq<byte>)
    requires Inv(c, d, m, keys, pass) && !m.locked && Injective(c, used) && pass.priv in used && try in used
    ensures var b := LockThenUnlock(c, d, m, try);
            && (b.error.None? <==> try == pass.priv)
            && (if b.error.None? then SameKeys(b.mem, m) else SameKeys(b.mem, Zeroed(m)))
  {
    var p := m.masterPriv.params;
    assert DeriveRaw(c, p, pass.priv).Some?;
    assert CopyKey(Zeros(32), keys.priv) == keys.priv;
    assert CopyKey(Zeros(32), keys.seed) == keys.seed;
    if DeriveRaw(c, p, try).Some? && c.digest(DeriveRaw(c, p, try).value) == p.digest {
      assert try == pass.priv;
    }
  }

  /** From a manager that was opened locked: after any run that leaves it unlocked under the
      empty passphrase, whether by unlocking or by changing to it, the shortcut accepts the
      empty passphrase exactly when the salt last hashed was all zeros. */
  lemma EmptyPassphraseShortcut(c: Crypto, used: set<seq<byte>>, d: Disk, m: Memory, keys: Keys, pass: Passphrases, ops: seq<Op>)
    requires Inv(c, d, m, keys, pass) && Injective(c, used) && pass.priv in used && m.locked
    requires forall op <- ops :: ValidOp(op) && Uses(op, used)
    requires !Run(c, d, m, ops).mem.locked && PassAfterRun(c, d, m, ops, pass).priv == []
    ensures var end := Run(c, d, m, ops);
            && LockThenUnlock(c, end.disk, end.mem, []).error.None?
            && (AfterUnlock(c, end.disk, end.mem, []).error.None?
                <==> HashedSaltAfterRun(c, d, m, ops, Zeros(32)) == Zeros(32))
  {
    hide Run, PassAfterRun, HashedSaltAfterRun, Inv;
    RunKeeps(c, d, m, keys, pass, ops);
    RunTracksHash(c, used, d, m, keys, pass, ops, Zeros(32));
    var end := Run(c, d, m, ops);
    ShortcutAgrees(c, used, end.disk, end.mem, keys, PassAfterRun(c, d, m, ops, pass), HashedSaltAfterRun(c, d, m, ops, Zeros(32)), []);
  }

  // ----- a commit that fails -----

  /** A passphrase change whose transaction fails to commit, after it changed the memory, splits
      the two: the running manager takes the new passphrase, a reopened one the old, and both
      come to the original keys. */
  lemma FailedCommitSplits(c: Crypto, d: Disk, m: Memory, keys: Keys, pass: Passphrases, op: Op, f: Fresh)
    requires Inv(c, d, m, keys, pass) && ValidOp(op) && op.ChangePrivateOp? && f.drawn && |f.passSalt| == 32
    requires Apply(c, d, m, op).error.None?
    ensures var running := LockThenUnlock(c, d, Apply(c, d, m, op).mem, op.new');
            var reopened := Load(c, d, pass.pub, f);
            && running.error.None? && running.mem.keyPriv == keys.priv && running.mem.keySeed == keys.seed
            && reopened.Ok?
            && var later := LockThenUnlock(c, d, reopened.value, pass.priv);
               later.error.None? && later.mem.keyPriv == keys.priv && later.mem.keySeed == keys.seed
  {
    StepKeeps(c, d, m, keys, pass, op);
    var r := Apply(c, d, m, op);
    KeysAreReachable(c, r.disk, r.mem, keys, PassAfter(c, d, m, op, pass), f);
    KeysAreReachable(c, d, m, keys, pass, f);
    var reopen := ReopenOp(pass.pub, f);
    StepKeeps(c, d, m, keys, pass, reopen);
    KeysAreReachable(c, d, Load(c, d, pass.pub, f).value, keys, pass, f);
  }
}
