/** Where the bytes of an artifact lie, and the arithmetic of the loop that walks
    its manifest with a moving window (`read_artifact`, `read_artifact_slice`). */
module RangeRead {
  import opened Bytes
  import opened Store
  import opened Safety
  import opened Upload

  /** Every chunk is there with the length its entry says, end to end. */
  ghost predicate Readable(files: map<Digest, Bytes>, a: Artifact) {
    && TotalLength(a.manifest) == a.size
    && forall i :: 0 <= i < |a.manifest| ==>
         a.manifest[i].offset == TotalLength(a.manifest[..i])
         && 0 < a.manifest[i].length <= a.chunkSize
         && a.manifest[i].digest in files && |files[a.manifest[i].digest]| == a.manifest[i].length
  }

  lemma SafeReadable(cfg: Config, s: State, ident: Ident)
    requires ValidConfig(cfg) && Safe(cfg, s) && ident in s.artifacts
    ensures Readable(s.files, s.artifacts[ident])
  {
    var a := s.artifacts[ident];
    assert ArtifactOk(cfg, s.files, a);
    forall i | 0 <= i < |a.manifest|
      ensures a.manifest[i].offset == TotalLength(a.manifest[..i]) && 0 < a.manifest[i].length <= a.chunkSize
              && a.manifest[i].digest in s.files && |s.files[a.manifest[i].digest]| == a.manifest[i].length
    {
      var d := a.manifest[i].digest;
      assert EntryOk(cfg, a.chunkSize, a.manifest, i);
      assert InManifest(a, d) && ByArtifact(s, d) && Referenced(s, d);
      assert Alive(s, d);
      FileSize(cfg, s, d, a.manifest[i].length);
    }
  }

  lemma TotalStep(m: seq<Entry>, i: nat)
    requires i < |m|
    ensures TotalLength(m[..i + 1]) == TotalLength(m[..i]) + m[i].length
  {
    assert m[..i + 1][..i] == m[..i];
  }

  lemma {:induction false} TotalGrows(m: seq<Entry>, i: nat, j: nat)
    requires i <= j <= |m|
    ensures TotalLength(m[..i]) <= TotalLength(m[..j])
  {
    if i < j {
      TotalGrows(m, i, j - 1);
      TotalStep(m, j - 1);
    }
  }

  lemma ContentStep(files: map<Digest, Bytes>, m: seq<Entry>, i: nat)
    requires i < |m|
    ensures Content(files, m[..i + 1]) == Content(files, m[..i]) + FileOf(files, m[i].digest)
  {
    assert m[..i + 1][..i] == m[..i];
  }

  lemma {:induction false} PrefixLength(files: map<Digest, Bytes>, a: Artifact, i: nat)
    requires Readable(files, a) && i <= |a.manifest|
    ensures |Content(files, a.manifest[..i])| == TotalLength(a.manifest[..i])
  {
    if i != 0 {
      PrefixLength(files, a, i - 1);
      TotalStep(a.manifest, i - 1);
      ContentStep(files, a.manifest, i - 1);
      assert |FileOf(files, a.manifest[i - 1].digest)| == a.manifest[i - 1].length;
      hide Content, FileOf, TotalLength, Readable;
    }
  }

  lemma {:induction false} PrefixContent(files: map<Digest, Bytes>, a: Artifact, i: nat, j: nat)
    requires Readable(files, a) && i <= j <= |a.manifest|
    ensures Content(files, a.manifest[..i]) <= Content(files, a.manifest[..j])
  {
    if i < j {
      hide Content, FileOf, TotalLength, Readable;
      PrefixContent(files, a, i, j - 1);
      ContentStep(files, a.manifest, j - 1);
    }
  }

  lemma ContentSize(files: map<Digest, Bytes>, a: Artifact)
    requires Readable(files, a)
    ensures |Content(files, a.manifest)| == a.size
  {
    PrefixLength(files, a, |a.manifest|);
    assert a.manifest[..|a.manifest|] == a.manifest;
  }

  lemma Middle(a: Bytes, b: Bytes, whole: Bytes)
    requires a + b <= whole
    ensures |a| + |b| <= |whole| && whole[|a|..|a| + |b|] == b
  {
  }

  /** Entry i of the manifest is bytes [offset, offset + length) of the content. */
  lemma EntryBytes(files: map<Digest, Bytes>, a: Artifact, i: nat)
    requires Readable(files, a) && i < |a.manifest|
    ensures var e := a.manifest[i];
            && e.offset + e.length == TotalLength(a.manifest[..i + 1]) <= a.size
            && |Content(files, a.manifest)| == a.size
            && Content(files, a.manifest)[e.offset..e.offset + e.length] == files[e.digest]
  {
    hide *;
    var m := a.manifest;
    ContentSize(files, a);
    PrefixLength(files, a, i);
    TotalStep(m, i);
    TotalGrows(m, i + 1, |m|);
    PrefixContent(files, a, i + 1, |m|);
    ContentStep(files, m, i);
    EntryFacts(files, a, i);
    assert m[..|m|] == m;
    Middle(Content(files, m[..i]), files[m[i].digest], Content(files, m));
  }

  lemma EntryFacts(files: map<Digest, Bytes>, a: Artifact, i: nat)
    requires Readable(files, a) && i < |a.manifest|
    ensures var e := a.manifest[i];
            e.digest in files && FileOf(files, e.digest) == files[e.digest] && |files[e.digest]| == e.length
            && e.offset == TotalLength(a.manifest[..i]) && 0 < e.length <= a.chunkSize
    ensures TotalLength(a.manifest) == a.size
  {
  }

  lemma SubSub(s: Bytes, a: nat, b: nat, c: nat, d: nat)
    requires a <= b <= |s| && c <= d <= b - a
    ensures s[a..b][c..d] == s[a + c..a + d]
  {
    var t := s[a..b];
    forall k | 0 <= k < d - c ensures t[c..d][k] == s[a + c..a + d][k] {
      assert t[c..d][k] == t[c + k] == s[a + (c + k)];
    }
  }

  lemma SubSlice(content: Bytes, file: Bytes, at: nat, local: nat, take: nat)
    requires at + |file| <= |content| && content[at..at + |file|] == file
    requires local + take <= |file|
    ensures Slice(file, local, take) == content[at + local..at + local + take]
  {
    SubSub(content, at, at + |file|, local, local + take);
    assert take == |file| - local ==> file[local..] == file[local..local + take];
  }

  /** The pieces handed over so far: non-empty, of bounded size, and spelling out
      content[from..to]. */
  ghost predicate Delivered(content: Bytes, from: nat, to: nat, pieces: seq<Bytes>, bound: nat) {
    from <= to <= |content| && Flatten(pieces) == content[from..to]
    && forall p :: p in pieces ==> 0 < |p| <= bound
  }

  lemma DeliveredNone(content: Bytes, from: nat, bound: nat)
    requires from <= |content|
    ensures Delivered(content, from, from, [], bound)
  {
  }

  lemma DeliveredMore(content: Bytes, from: nat, to: nat, pieces: seq<Bytes>, bound: nat, take: nat)
    requires Delivered(content, from, to, pieces, bound) && to + take <= |content| && 0 < take <= bound
    ensures Delivered(content, from, to + take, pieces + [content[to..to + take]], bound)
  {
    FlattenSnoc(pieces, content[to..to + take]);
    assert content[from..to] + content[to..to + take] == content[from..to + take];
  }
}
