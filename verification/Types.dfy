/** Values shared by the code-search modules (crates/code-search/src/types.rs, files.rs). */
module Types {
  import opened Orders
  import opened Strings
  import opened Utf8

  /** A workspace-relative path as text, `/`-separated. */
  type Path = string

  /** File text, as its UTF-8 bytes. */
  type Text = Bytes

  datatype ContentFilter = Code | Docs | Config | All

  datatype Chunk = Chunk(content: Text, filePath: Path, startLine: nat, endLine: nat, language: string)

  datatype CodeSearchError =
    | EmptyMatrix | RangeOutside | DimensionsChanged
    | ZeroDimensions | InconsistentDimensions
    | CountMismatch | CacheMismatch
    | ProviderFailed(message: string)

  /** `FileManifestEntry`: the cheap identity of a file. */
  datatype Manifest = Manifest(path: Path, size: nat, modifiedUnixNanos: nat)

  datatype FileEntry = FileEntry(absolutePath: Path, language: string, manifest: Manifest)

  function CompareText(a: string, b: string): Ordering {
    Lex(CompareChar, a, b)
  }

  /** `Path::cmp`: component by component. */
  function ComparePath(a: Path, b: Path): Ordering {
    Lex(CompareText, Split(a, '/'), Split(b, '/'))
  }

  lemma TextTotalOrder()
    ensures TotalOrder(CompareChar) && TotalOrder(CompareText)
  {
    var lex := (a, b) => Lex(CompareChar, a, b);
    LexTotalOrder(CompareChar);
    assert forall a, b :: CompareText(a, b) == lex(a, b);
  }

  /** After `k` equal characters the first text ends before the second, or has the smaller character. */
  predicate TextBefore(a: string, b: string, k: nat) {
    k <= |a| && k < |b| && a[..k] == b[..k] && (k < |a| ==> a[k] < b[k])
  }

  lemma TextLessIff(a: string, b: string)
    ensures CompareText(a, b) == Less <==> exists k: nat :: TextBefore(a, b, k)
  {
    TextTotalOrder();
    LexLessIff(CompareChar, a, b);
    assert forall k: nat :: TextBefore(a, b, k) <==> SmallerAt(CompareChar, a, b, k);
  }

  /** Paths compare by components: the first that differs decides, or the end. */
  lemma PathLessIff(a: Path, b: Path)
    ensures ComparePath(a, b) == Less
       <==> exists k: nat :: SmallerAt(CompareText, Split(a, '/'), Split(b, '/'), k)
  {
    TextTotalOrder();
    hide CompareText, Split;
    LexLessIff(CompareText, Split(a, '/'), Split(b, '/'));
    assert ComparePath(a, b) == Lex(CompareText, Split(a, '/'), Split(b, '/'));
  }

  lemma PathTotalOrder()
    ensures TotalOrder(ComparePath)
  {
    TextTotalOrder();
    var lex := (a, b) => Lex(CompareText, a, b);
    LexTotalOrder(CompareText);
    forall a: Path, b: Path
      ensures ComparePath(a, b) == Equal <==> a == b
      ensures ComparePath(a, b) == ComparePath(b, a).Reverse()
    {
      assert ComparePath(a, b) == lex(Split(a, '/'), Split(b, '/'));
      JoinOfSplit(a, '/');
      JoinOfSplit(b, '/');
    }
    forall a: Path, b: Path, c: Path | ComparePath(a, b) == Less && ComparePath(b, c) == Less
      ensures ComparePath(a, c) == Less
    {
      assert lex(Split(a, '/'), Split(b, '/')) == Less && lex(Split(b, '/'), Split(c, '/')) == Less;
      assert lex(Split(a, '/'), Split(c, '/')) == Less;
    }
  }

  /** How long a warm index may be used without a walk: 30 seconds, in nanoseconds like every instant. */
  const MANIFEST_SAFETY_INTERVAL: nat := 30_000_000_000
}
