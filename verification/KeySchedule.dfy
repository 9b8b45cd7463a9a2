/** Traffic secrets and the states derived from them (section 7 of RFC 8446). */
module KeySchedule {
  import opened Results
  import opened ByteStrings
  import opened Primitives
  import opened RecordProtection

  /** What a TLS 1.3 cipher suite fixes. */
  datatype Suite = Suite(prf: Prf, cipher: CipherName, keyLength: nat, tagLength: nat)

  const KEY: Bytes := [107, 101, 121]
  const IV: Bytes := [105, 118]
  const TRAFFIC_UPD: Bytes := [116, 114, 97, 102, 102, 105, 99, 32, 117, 112, 100]

  const TLS13_CONFIG := Config(TLS13, true, None)

  function PrfLength(prf: Prf): nat {
    match prf case Sha256 => 32 case Sha384 => 48
  }

  /** A fresh connection state under a traffic secret. */
  function TrafficState(c: Crypto, suite: Suite, secret: Bytes): CState {
    var key := c.expandLabel(suite.prf, secret, KEY, [], suite.keyLength);
    CState(None, AeadCipher(Aead(suite.cipher, key, suite.tagLength, 12)),
           c.expandLabel(suite.prf, secret, IV, [], 12), 0, false)
  }

  /** The next application traffic secret. */
  function NextSecret(c: Crypto, suite: Suite, secret: Bytes): Bytes {
    c.expandLabel(suite.prf, secret, TRAFFIC_UPD, [], PrfLength(suite.prf))
  }

  /** A state that TLS 1.3 protects records with. */
  predicate Keyed(st: CState) {
    st.enc.AeadCipher? && st.mac.None?
  }
}
