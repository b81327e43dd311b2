/**
 * The asset resolver: maps a background id or a character id to the URL of
 * an image in the game's storage bucket. `encodeURIComponent` is not
 * modelled; every member takes the percent-encoder as a parameter `enc`, so
 * what is proved here holds for any encoder.
 */
module Assets {
  import opened Strings

  type Encoder = string -> string

  const Scheme: string := "https://"
  const BucketBase: string := Scheme + "firebasestorage.googleapis.com/v0/b/novel-game-engine.firebasestorage.app/o/"
  const MediaSuffix: string := "?alt=media"
  const Narrator: string := "narrator"

  /** The direct-media URL of the object stored at `path`. */
  function StorageUrl(enc: Encoder, path: string): string {
    BucketBase + enc(path) + MediaSuffix
  }

  function BackgroundPath(id: string): string { "backgrounds/" + id + ".png" }

  function CharacterPath(charId: string): string { "characters/" + charId + ".png" }

  ghost predicate Injective(enc: Encoder) {
    forall x, y :: enc(x) == enc(y) ==> x == y
  }

  /** `resolveBgUrl`: empty stays empty, an `http...` id is already a URL. */
  function ResolveBgUrl(enc: Encoder, id: string): (r: string)
    ensures r == "" <==> id == ""
    ensures StartsWith(id, "http") ==> r == id
    ensures id != "" && !StartsWith(id, "http") ==> r == StorageUrl(enc, BackgroundPath(id))
  {
    if id == "" then ""
    else if StartsWith(id, "http") then id
    else StorageUrl(enc, BackgroundPath(id))
  }

  /** `resolveCharUrl`: the narrator has no portrait; the expression is ignored. */
  function ResolveCharUrl(enc: Encoder, charId: string, expressionId: string): (r: string)
    ensures r == "" <==> charId == Narrator
    ensures charId != Narrator ==> r == StorageUrl(enc, CharacterPath(charId))
  {
    if charId == Narrator then "" else StorageUrl(enc, CharacterPath(charId))
  }

  /** Every storage URL is itself an `http...` URL. */
  lemma StorageUrlIsHttp(enc: Encoder, path: string)
    ensures StartsWith(StorageUrl(enc, path), "http")
  {
    var u := StorageUrl(enc, path);
    assert BucketBase[..4] == Scheme[..4] == "http";
    assert u[..4] == BucketBase[..4];
  }

  /** Resolving an already resolved background URL returns it unchanged. */
  lemma ResolveBgIdempotent(enc: Encoder, id: string)
    ensures ResolveBgUrl(enc, ResolveBgUrl(enc, id)) == ResolveBgUrl(enc, id)
  {
    if id != "" && !StartsWith(id, "http") {
      StorageUrlIsHttp(enc, BackgroundPath(id));
    }
  }

  /** Distinct paths give distinct storage URLs when the encoder is injective. */
  lemma StorageUrlInjective(enc: Encoder, p: string, q: string)
    requires Injective(enc)
    requires StorageUrl(enc, p) == StorageUrl(enc, q)
    ensures p == q
  {
    var u := StorageUrl(enc, p);
    var lo, hi := |BucketBase|, |u| - |MediaSuffix|;
    assert enc(p) == u[lo..hi];
    assert enc(q) == StorageUrl(enc, q)[lo..hi];
  }

  lemma {:induction false} AffixCancel(pre: string, a: string, b: string, suf: string)
    requires pre + a + suf == pre + b + suf
    ensures a == b
  {
    var u := pre + a + suf;
    assert a == u[|pre|..|u| - |suf|];
    assert b == (pre + b + suf)[|pre|..|u| - |suf|];
  }

  /** Two background ids that are plain names never share a URL. */
  lemma ResolveBgInjective(enc: Encoder, a: string, b: string)
    requires Injective(enc)
    requires a != "" && !StartsWith(a, "http") && b != "" && !StartsWith(b, "http")
    requires ResolveBgUrl(enc, a) == ResolveBgUrl(enc, b)
    ensures a == b
  {
    StorageUrlInjective(enc, BackgroundPath(a), BackgroundPath(b));
    AffixCancel("backgrounds/", a, b, ".png");
  }

  /** Two characters other than the narrator never share a fallback URL. */
  lemma ResolveCharInjective(enc: Encoder, a: string, b: string, ea: string, eb: string)
    requires Injective(enc)
    requires a != Narrator && b != Narrator
    requires ResolveCharUrl(enc, a, ea) == ResolveCharUrl(enc, b, eb)
    ensures a == b
  {
    StorageUrlInjective(enc, CharacterPath(a), CharacterPath(b));
    AffixCancel("characters/", a, b, ".png");
  }
}
