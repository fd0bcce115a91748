/** The schema normaliser of the sales loader: label clean-up, the synonym
    table applied without ever overwriting a canonical column, and the
    last-resort choice of the product-code column. */
module Schema {

  import opened Wrappers
  import opened Text
  import opened Table

  /** `str(c).upper().strip()` */
  function CleanLabel(c: string): string {
    Strip(Upper(c))
  }

  function CleanLabels(labels: seq<string>): (r: seq<string>)
    ensures |r| == |labels|
    ensures forall k :: 0 <= k < |labels| ==> r[k] == CleanLabel(labels[k])
  {
    seq(|labels|, k requires 0 <= k < |labels| => CleanLabel(labels[k]))
  }

  /** The synonym table (`correcciones`): variant label to canonical label. */
  const Synonyms: map<string, string> := map[
    "ANO" := "AÑO", "YEAR" := "AÑO", "MONTH" := "MES", "DATE" := "FECHA",
    "NOMBRE CLIENTE" := "CLIENTE", "CUSTOMER" := "CLIENTE",
    "CODIGO" := "CAI", "MATERIAL" := "CAI", "ARTICULO" := "CAI"]

  /** No canonical label is itself a variant, so a renamed column is never renamed again. */
  lemma CanonicalNotVariant()
    ensures forall k :: k in Synonyms ==> Synonyms[k] !in Synonyms
  {
  }

  /** `renames_final`: the variants present whose canonical label is absent. */
  function PlannedRenames(labels: seq<string>): (m: map<string, string>)
    ensures forall k :: k in m <==> k in Synonyms && k in labels && Synonyms[k] !in labels
    ensures forall k :: k in m ==> m[k] == Synonyms[k]
  {
    map k | k in Synonyms && k in labels && Synonyms[k] !in labels :: Synonyms[k]
  }

  /** The synonym pass. Every column keeps its place; a column changes label
      only when it is a variant whose canonical label is absent, and then it
      takes the canonical label. */
  function Normalize(labels: seq<string>): (r: seq<string>)
    ensures |r| == |labels|
    ensures forall k :: 0 <= k < |labels| && r[k] != labels[k] ==>
              labels[k] in Synonyms && Synonyms[labels[k]] !in labels && r[k] == Synonyms[labels[k]]
    ensures forall k :: 0 <= k < |labels| && labels[k] in Synonyms && Synonyms[labels[k]] !in labels ==>
              r[k] == Synonyms[labels[k]]
  {
    Rename(labels, PlannedRenames(labels))
  }

  /** A canonical column present before the pass is still there, untouched,
      at the same place: the pass never overwrites it. */
  lemma NormalizeKeepsCanonical(labels: seq<string>, k: nat)
    requires k < |labels| && labels[k] in Synonyms.Values
    ensures Normalize(labels)[k] == labels[k]
  {
    CanonicalNotVariant();
  }

  /** Normalising twice renames nothing more. */
  lemma {:induction false} NormalizeIdempotent(labels: seq<string>)
    ensures Normalize(Normalize(labels)) == Normalize(labels)
  {
    var r := Normalize(labels);
    CanonicalNotVariant();
    forall v | v in Synonyms && v in r
      ensures Synonyms[v] in r
    {
      var k :| 0 <= k < |r| && r[k] == v;
      assert r[k] == labels[k];
      var j :| 0 <= j < |labels| && labels[j] == Synonyms[v];
      assert r[j] == labels[j];
    }
    assert PlannedRenames(r) == map[];
  }

  /** Two variants of one canonical label both take it when it is absent,
      leaving two columns with the same label. */
  lemma NormalizeDuplicates()
    ensures Normalize(["YEAR", "ANO", "CANTIDAD"]) == ["AÑO", "AÑO", "CANTIDAD"]
  {
    YearVariants();
    QuantityIsNoVariant();
    NormalizeThree("YEAR", "ANO", "CANTIDAD", "AÑO");
  }

  lemma YearVariants()
    ensures "YEAR" in Synonyms && Synonyms["YEAR"] == "AÑO"
    ensures "ANO" in Synonyms && Synonyms["ANO"] == "AÑO"
  {
  }

  lemma QuantityIsNoVariant()
    ensures "CANTIDAD" !in Synonyms
  {
  }

  /** Two variants of an absent canonical label c, then a label that is no
      variant: both variants become c. */
  lemma NormalizeThree(a: string, b: string, x: string, c: string)
    requires a in Synonyms && Synonyms[a] == c && b in Synonyms && Synonyms[b] == c
    requires x !in Synonyms && a != c && b != c && x != c
    ensures Normalize([a, b, x]) == [c, c, x]
  {
    var l := [a, b, x];
    assert c !in l;
    var r := Normalize(l);
    assert r[0] == c && r[1] == c && r[2] == x;
  }

  /** A label that can stand for the product code when no "CAI" column exists. */
  predicate IsCodeLike(l: string) {
    StartsWith(l, "COD") || StartsWith(l, "MAT")
  }

  /** Index of the first code-like label. */
  function FirstCodeLike(labels: seq<string>): (r: Option<nat>)
    ensures r.Some? ==> r.value < |labels| && IsCodeLike(labels[r.value])
    ensures r.Some? ==> forall j :: 0 <= j < r.value ==> !IsCodeLike(labels[j])
    ensures r.None? <==> forall j :: 0 <= j < |labels| ==> !IsCodeLike(labels[j])
  {
    if |labels| == 0 then None
    else if IsCodeLike(labels[0]) then Some(0)
    else match FirstCodeLike(labels[1..])
      case None => None
      case Some(k) => Some(k + 1)
  }

  /** The product-code fallback. With "CAI" present nothing changes. Without
      it the first code-like label becomes "CAI" (every column carrying that
      label) and every other label stays; with no code-like label the
      loader must stop, signalled by None. */
  function CaiFallback(labels: seq<string>): (r: Option<seq<string>>)
    ensures "CAI" in labels ==> r == Some(labels)
    ensures r.None? <==> "CAI" !in labels && forall j :: 0 <= j < |labels| ==> !IsCodeLike(labels[j])
    ensures r.Some? ==> |r.value| == |labels| && "CAI" in r.value
    ensures r.Some? && "CAI" !in labels ==>
              exists j | 0 <= j < |labels| :: IsCodeLike(labels[j])
                && (forall i :: 0 <= i < j ==> !IsCodeLike(labels[i]))
                && forall k :: 0 <= k < |labels| ==>
                     r.value[k] == (if labels[k] == labels[j] then "CAI" else labels[k])
  {
    if "CAI" in labels then Some(labels)
    else match FirstCodeLike(labels)
      case None => None
      case Some(j) =>
        var renamed := Rename(labels, map[labels[j] := "CAI"]);
        assert renamed[j] == "CAI";
        Some(renamed)
  }

  /** The fallback can capture the client-code column: a file with
      "COD.CLIENTE" before any product-code column gets its client codes
      treated as product codes. */
  lemma FallbackTakesClientCode()
    ensures CaiFallback(["COD.CLIENTE", "MATERIAL NUEVO", "CANTIDAD"]) == Some(["CAI", "MATERIAL NUEVO", "CANTIDAD"])
  {
    var l := ["COD.CLIENTE", "MATERIAL NUEVO", "CANTIDAD"];
    assert l[0][..3] == "COD";
    assert FirstCodeLike(l) == Some(0);
    assert "CAI" !in l by {
      assert |l[0]| != 3 && |l[1]| != 3 && |l[2]| != 3;
    }
    assert Rename(l, map[l[0] := "CAI"]) == ["CAI", "MATERIAL NUEVO", "CANTIDAD"];
  }
}
