/** The content hash of src/Minify.js (`createHash`): the first seven hex digits
    of a SHA-1 digest with every vowel shifted to the next letter. */
module Hash {

  /** A digit of a lower-case hexadecimal digest. */
  predicate IsHexDigit(c: char) {
    '0' <= c <= '9' || 'a' <= c <= 'f'
  }

  /** What `crypto.createHash('sha1').update(code).digest('hex')` yields: forty
      lower-case hex digits. The digest itself is computed outside the model. */
  type HexDigest = s: string | |s| == 40 && forall i | 0 <= i < |s| :: IsHexDigit(s[i])
    witness "0000000000000000000000000000000000000000"

  predicate IsVowel(c: char) {
    c == 'a' || c == 'e' || c == 'i' || c == 'o' || c == 'u'
  }

  /** The characters a content hash can contain: 0-9, b, c, d and f. */
  predicate InHashAlphabet(c: char) {
    '0' <= c <= '9' || c == 'b' || c == 'c' || c == 'd' || c == 'f'
  }

  /** The substitution, one character at a time: a->b, e->f, i->j, o->p, u->v. */
  function VowelShift(c: char): char {
    if c == 'a' then 'b'
    else if c == 'e' then 'f'
    else if c == 'i' then 'j'
    else if c == 'o' then 'p'
    else if c == 'u' then 'v'
    else c
  }

  /** `s.replace(/from/g, to)` for a one-character pattern. */
  function ReplaceAll(s: string, from: char, to: char): (r: string)
    ensures |r| == |s|
    ensures forall i | 0 <= i < |s| :: r[i] == if s[i] == from then to else s[i]
  {
    if s == [] then []
    else [if s[0] == from then to else s[0]] + ReplaceAll(s[1..], from, to)
  }

  /** `createHash`: slice the digest to seven characters, then apply the five
      global replacements in the order the source chains them. */
  function ContentHash(digest: HexDigest): (h: string)
    ensures |h| == 7
    ensures forall i | 0 <= i < 7 :: h[i] == VowelShift(digest[i])
    ensures forall i | 0 <= i < 7 :: InHashAlphabet(h[i]) && !IsVowel(h[i])
  {
    var h := digest[..7];
    ReplaceAll(ReplaceAll(ReplaceAll(ReplaceAll(ReplaceAll(h, 'a', 'b'), 'e', 'f'), 'i', 'j'), 'o', 'p'), 'u', 'v')
  }

  /** The substitution is not injective: two digests whose first seven digits
      differ only by a vowel and its successor give the same hash, so the
      shift adds collisions on top of the truncation. */
  lemma {:induction false} ShiftCollides(d1: HexDigest, d2: HexDigest)
    requires forall i | 0 <= i < 7 :: VowelShift(d1[i]) == VowelShift(d2[i])
    ensures ContentHash(d1) == ContentHash(d2)
  {
    var h1, h2 := ContentHash(d1), ContentHash(d2);
    assert forall i | 0 <= i < 7 :: h1[i] == h2[i];
  }
}
