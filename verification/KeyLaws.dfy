/** When each operation of the address manager succeeds, with which error it fails otherwise, and
    what it leaves (waddrmgr/manager.go). */
module KeyLaws {
  import opened Wrappers
  import opened Bytes
  import opened SecretKeys
  import opened KeyManager

  /** A passphrase opens what the parameters were made for: it derives a key of the stored
      digest. */
  predicate Opens(c: Crypto, p: Params, pass: seq<byte>) {
    var key := c.kdf(pass, p.salt, p.n, p.r, p.p);
    key.Some? && c.digest(key.value) == p.digest
  }

  /** It derives the very key that the passphrase in force derives. A passphrase that opens
      without doing so has found a second key of the same digest. */
  predicate SameKey(c: Crypto, p: Params, pass: seq<byte>, try: seq<byte>) {
    c.kdf(try, p.salt, p.n, p.r, p.p) == c.kdf(pass, p.salt, p.n, p.r, p.p)
  }

  /** Among the passphrases in use only the one in force opens. */
  lemma OnlyOneOpens(c: Crypto, used: set<seq<byte>>, p: Params, pass: seq<byte>, try: seq<byte>)
    requires Injective(c, used) && pass in used && try in used && Opens(c, p, pass)
    ensures Opens(c, p, try) <==> try == pass
    ensures SameKey(c, p, pass, try) <==> try == pass
  {
    assert DeriveRaw(c, p, pass).Some?;
    if Opens(c, p, try) {
      assert DeriveRaw(c, p, try).Some?;
    }
  }

  /** No private key material in memory. */
  predicate Wiped(m: Memory) {
    m.locked && m.keyPriv == Zeros(32) && m.keySeed == Zeros(32) && m.keyScript == Zeros(32)
    && m.masterPriv.key == Zeros(32) && m.hashed == Zeros(64)
  }

  /** The original keys at hand. */
  predicate Holds(m: Memory, keys: Keys) {
    !m.locked && m.keyPriv == keys.priv && m.keySeed == keys.seed
  }

  /** What locking and unlocking leave alone. */
  predicate SameCiphers(m: Memory, m': Memory) {
    m'.privEnc == m.privEnc && m'.seedEnc == m.seedEnc && m'.scriptEnc == m.scriptEnc
    && m'.masterPriv.params == m.masterPriv.params && m'.masterPub == m.masterPub && m'.keyPub == m.keyPub
    && m'.watching == m.watching
  }

  lemma LockOutcome(c: Crypto, d: Disk, m: Memory, keys: Keys, pass: Passphrases)
    requires Inv(c, d, m, keys, pass)
    ensures var r := AfterLock(d, m);
            && r.disk == d && Wiped(r.mem) && SameCiphers(m, r.mem) && r.mem.salt == m.salt
            && r.error == (if m.locked then Some(Locked) else None)
            && (m.locked ==> r.mem == m)
  {
  }

  /** MAIN RESULT on unlocking a locked manager: it succeeds exactly with a passphrase that
      derives the key in force, and then with the original keys; any other leaves it locked and
      wiped. */
  lemma UnlockOutcome(c: Crypto, d: Disk, m: Memory, keys: Keys, pass: Passphrases, try: seq<byte>)
    requires Inv(c, d, m, keys, pass) && m.locked
    ensures var r := AfterUnlock(c, d, m, try);
            var p := m.masterPriv.params;
            && r.disk == d && SameCiphers(m, r.mem)
            && r.error == (if SameKey(c, p, pass.priv, try) then None
                           else if c.kdf(try, p.salt, p.n, p.r, p.p).None? || Opens(c, p, try) then Some(CryptoError)
                           else Some(WrongPassphrase))
            && (if r.error.None? then Holds(r.mem, keys) else Wiped(r.mem) && r.mem.salt == m.salt)
    ensures Opens(c, m.masterPriv.params, pass.priv)
  {
    assert CopyKey(m.keyPriv, keys.priv) == keys.priv;
    assert CopyKey(m.keySeed, keys.seed) == keys.seed;
  }

  /** An unlocked manager that refuses a passphrase ends up locked and wiped; one that accepts
      it keeps its keys. */
  lemma UnlockAgainOutcome(c: Crypto, d: Disk, m: Memory, keys: Keys, pass: Passphrases, try: seq<byte>)
    requires Inv(c, d, m, keys, pass) && !m.locked
    ensures var r := AfterUnlock(c, d, m, try);
            && r.disk == d && SameCiphers(m, r.mem)
            && r.error == (if c.hash(m.salt + try) == m.hashed then None else Some(WrongPassphrase))
            && (if r.error.None? then Holds(r.mem, keys) && r.mem.hashed == m.hashed else Wiped(r.mem))
  {
  }

  /** How a change of passphrase ends whose old passphrase is accepted if it opens, and whose
      keys can be decrypted if `decrypts`. */
  function ChangeError(c: Crypto, p: Params, old': seq<byte>, new': seq<byte>, config: Config, f: Fresh, decrypts: bool): Option<Error> {
    if c.kdf(old', p.salt, p.n, p.r, p.p).None? then Some(CryptoError)
    else if !Opens(c, p, old') then Some(WrongPassphrase)
    else if !f.drawn || c.kdf(new', f.keySalt, config.n, config.r, config.p).None? || !decrypts then Some(CryptoError)
    else if !f.stored then Some(DatabaseError)
    else None
  }

  /** MAIN RESULT on changing the private passphrase, locked or unlocked. It succeeds exactly if
      the old passphrase derives the key in force, random values are drawn, the new one derives a key and the
      database stores; otherwise nothing changes. Success seals each key under the new one
      with a nonce of its own, keeps the lock state, and draws a new salt. */
  lemma PrivateChangeOutcome(c: Crypto, d: Disk, m: Memory, keys: Keys, pass: Passphrases,
                             old': seq<byte>, new': seq<byte>, config: Config, f: Fresh)
    requires Inv(c, d, m, keys, pass)
    ensures var r := AfterChangePrivate(c, d, m, old', new', config, f);
            && r.error == ChangeError(c, m.masterPriv.params, old', new', config, f, SameKey(c, m.masterPriv.params, pass.priv, old'))
            && (r.error.None? <==> SameKey(c, m.masterPriv.params, pass.priv, old') && f.drawn && f.stored
                                   && c.kdf(new', f.keySalt, config.n, config.r, config.p).Some?)
            && (r.error.Some? ==> r.disk == d && r.mem == m)
            && (r.error.None? ==>
                  var key := c.kdf(new', f.keySalt, config.n, config.r, config.p).value;
                  && r.disk.privEnc == Sealed(key, f.nonce1, keys.priv) == r.mem.privEnc
                  && r.disk.seedEnc == Sealed(key, f.nonce2, keys.seed) == r.mem.seedEnc
                  && r.disk.scriptEnc == Sealed(key, f.nonce3, keys.script) == r.mem.scriptEnc
                  && r.mem.masterPriv.params == Params(f.keySalt, c.digest(key), config.n, config.r, config.p)
                  && r.disk.pubParams == d.pubParams && r.disk.pubEnc == d.pubEnc
                  && r.mem.masterPub == m.masterPub && r.mem.keyPub == m.keyPub
                  && (if m.locked then Wiped(r.mem) && r.mem.salt == f.passSalt
                      else Holds(r.mem, keys) && r.mem.masterPriv.key == key && r.mem.hashed == c.hash(f.passSalt + new')))
    ensures Opens(c, m.masterPriv.params, pass.priv)
  {
  }

  /** MAIN RESULT on changing the public passphrase: the same conditions, for the public half,
      and the private one is not touched. */
  lemma PublicChangeOutcome(c: Crypto, d: Disk, m: Memory, keys: Keys, pass: Passphrases,
                            old': seq<byte>, new': seq<byte>, config: Config, f: Fresh)
    requires Inv(c, d, m, keys, pass)
    ensures var r := AfterChangePublic(c, d, m, old', new', config, f);
            && r.error == ChangeError(c, m.masterPub.params, old', new', config, f, true)
            && (r.error.None? <==> Opens(c, m.masterPub.params, old') && f.drawn && f.stored
                                   && c.kdf(new', f.keySalt, config.n, config.r, config.p).Some?)
            && (r.error.Some? ==> r.disk == d && r.mem == m)
            && (r.error.None? ==>
                  var key := c.kdf(new', f.keySalt, config.n, config.r, config.p).value;
                  && r.disk == d.(pubEnc := Sealed(key, f.nonce1, keys.pub), pubParams := r.disk.pubParams)
                  && Unmarshalled(r.disk.pubParams) == Unmarshalled(Marshalled(r.mem.masterPub.params))
                  && r.mem == m.(masterPub := SecretKey(key, Params(f.keySalt, c.digest(key), config.n, config.r, config.p))))
    ensures Opens(c, m.masterPub.params, pass.pub)
  {
  }

  /** Among the passphrases in use, a change is refused for the passphrase exactly when the old
      one given is not the one in force. */
  lemma ChangeNeedsThePassphrase(c: Crypto, used: set<seq<byte>>, d: Disk, m: Memory, keys: Keys, pass: Passphrases,
                                 old': seq<byte>, new': seq<byte>, config: Config, f: Fresh)
    requires Inv(c, d, m, keys, pass) && Injective(c, used)
    requires old' in used && pass.priv in used && pass.pub in used
    requires f.drawn && f.stored && c.kdf(new', f.keySalt, config.n, config.r, config.p).Some?
    ensures AfterChangePrivate(c, d, m, old', new', config, f).error.None? <==> old' == pass.priv
    ensures AfterChangePublic(c, d, m, old', new', config, f).error.None? <==> old' == pass.pub
  {
    PrivateChangeOutcome(c, d, m, keys, pass, old', new', config, f);
    PublicChangeOutcome(c, d, m, keys, pass, old', new', config, f);
    OnlyOneOpens(c, used, m.masterPriv.params, pass.priv, old');
    OnlyOneOpens(c, used, m.masterPub.params, pass.pub, old');
  }

  /** From a locked manager too, only the passphrase in force unlocks. */
  lemma UnlockNeedsThePassphrase(c: Crypto, used: set<seq<byte>>, d: Disk, m: Memory, keys: Keys, pass: Passphrases, try: seq<byte>)
    requires Inv(c, d, m, keys, pass) && m.locked && Injective(c, used) && try in used && pass.priv in used
    ensures AfterUnlock(c, d, m, try).error.None? <==> try == pass.priv
  {
    UnlockOutcome(c, d, m, keys, pass, try);
    OnlyOneOpens(c, used, m.masterPriv.params, pass.priv, try);
  }

  /** MAIN RESULT on reopening: it succeeds exactly with a public passphrase that derives the
      key in force, with the error of each other case, and gives a locked manager with nothing private in memory, the original public key and a
      salt of its own. */
  lemma ReopenOutcome(c: Crypto, d: Disk, m: Memory, keys: Keys, pass: Passphrases, pubPass: seq<byte>, f: Fresh)
    requires Inv(c, d, m, keys, pass)
    ensures var r := AfterReopen(c, d, m, pubPass, f);
            && r.disk == d
            && r.error == (if !Opens(c, m.masterPub.params, pubPass) then Some(WrongPassphrase)
                           else if !SameKey(c, m.masterPub.params, pass.pub, pubPass) || !f.drawn then Some(CryptoError)
                           else None)
            && (r.error.None? ==> Wiped(r.mem) && r.mem.keyPub == keys.pub && r.mem.salt == f.passSalt && !r.mem.watching
                                  && r.mem.masterPriv.params == m.masterPriv.params
                                  && r.mem.privEnc == d.privEnc && r.mem.seedEnc == d.seedEnc && r.mem.scriptEnc == d.scriptEnc)
            && (r.error.Some? ==> r.mem == m)
  {
    MarshalRoundTrip(m.masterPriv.params);
    MarshalRoundTrip(m.masterPub.params);
    assert CopyKey(Zeros(32), keys.pub) == keys.pub;
  }

  /** What can be decrypted: with the public key always, with a private one only while
      unlocked, and only what was sealed under that key. */
  lemma DecryptOutcome(c: Crypto, d: Disk, m: Memory, keys: Keys, pass: Passphrases, t: KeyType, key: seq<byte>,
                       nonce: seq<byte>, plain: seq<byte>)
    requires Inv(c, d, m, keys, pass) && !t.CKTScript?
    ensures var own := match t case CKTPublic => keys.pub case CKTSeed => keys.seed case _ => keys.priv;
            Decrypt(m, t, Sealed(key, nonce, plain)) == if key == own && (t.CKTPublic? || !m.locked) then Some(plain) else None
  {
  }

  /** A watching-only manager refuses whatever needs a private key, and nothing changes. */
  lemma WatchingOnlyRefuses(c: Crypto, d: Disk, m: Memory, pass: seq<byte>, new': seq<byte>, config: Config, f: Fresh,
                            t: KeyType, plain: seq<byte>, cipher: Cipher)
    requires m.watching
    ensures AfterLock(d, m) == AfterUnlock(c, d, m, pass) == AfterChangePrivate(c, d, m, pass, new', config, f)
            == Outcome(d, m, Some(WatchingOnly))
    ensures !t.CKTPublic? ==> Encrypt(m, t, plain, f.nonce1).None? && Decrypt(m, t, cipher).None?
  {
  }

  /** A wallet is created exactly when the private passphrase is not empty, both passphrases
      derive a key, and random values and storage do not fail; each key has its own nonce. */
  lemma CreateOutcome(c: Crypto, pubPass: seq<byte>, privPass: seq<byte>, config: Config, keys: Keys,
                      pubFresh: Fresh, privFresh: Fresh)
    ensures var r := Create(c, pubPass, privPass, config, keys, pubFresh, privFresh);
            var pub := c.kdf(pubPass, pubFresh.keySalt, config.n, config.r, config.p);
            var priv := c.kdf(privPass, privFresh.keySalt, config.n, config.r, config.p);
            && (r.Some? <==> privPass != [] && pub.Some? && priv.Some? && pubFresh.drawn && privFresh.drawn
                             && pubFresh.stored && privFresh.stored)
            && (r.Some? ==> r.value.pubEnc == Sealed(pub.value, pubFresh.nonce1, keys.pub)
                            && r.value.privEnc == Sealed(priv.value, privFresh.nonce1, keys.priv)
                            && r.value.scriptEnc == Sealed(priv.value, privFresh.nonce2, keys.script)
                            && r.value.seedEnc == Sealed(priv.value, privFresh.nonce3, keys.seed) && !r.value.watching)
  {
  }
}
