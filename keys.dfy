/** Public node identities and their textual ("strkey") encoding.
    A Stellar account strkey is 56 characters of the RFC 4648 base32 alphabet
    starting with the version character 'G'. The model identifies a key with
    its canonical encoding; base32 decoding and the CRC16 checksum are not
    modelled. */
module Keys {
  import opened Wrappers

  const StrKeyLength: nat := 56

  predicate IsBase32Char(c: char) {
    ('A' <= c <= 'Z') || ('2' <= c <= '7')
  }

  /** What `KeyUtils::fromStrKey<PublicKey>` accepts. */
  predicate ValidStrKey(s: string) {
    |s| == StrKeyLength && s[0] == 'G' && forall i :: 0 <= i < |s| ==> IsBase32Char(s[i])
  }

  type StrKey = s: string | ValidStrKey(s)
    witness ['G'] + seq(StrKeyLength - 1, _ => 'A')

  datatype PublicKey = PublicKey(encoded: StrKey)

  /** `KeyUtils::toStrKey`. */
  function ToStrKey(k: PublicKey): (s: string)
    ensures ValidStrKey(s)
  {
    k.encoded
  }

  /** `KeyUtils::fromStrKey<PublicKey>`: a partial decoder; None stands for the
      exception it throws on a malformed key. */
  function FromStrKey(s: string): (r: Option<PublicKey>)
    ensures r.Some? <==> ValidStrKey(s)
    ensures r.Some? ==> ToStrKey(r.value) == s
  {
    if ValidStrKey(s) then Some(PublicKey(s)) else None
  }

  /** Encoding then decoding gives the key back. */
  lemma FromToStrKey(k: PublicKey)
    ensures FromStrKey(ToStrKey(k)) == Some(k)
  {
  }
}
