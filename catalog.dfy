/**
  The fixed flower table of server.js (`flowerData`): ten entries, in the
  order the object literal declares them, each with a name, an integer price
  and the list of style tags the flower suits.

  The selector reads the table through a parameter (`catalog`), and every
  fact it relies on is the predicate WellFormed, proved below of FlowerData.
 */
module Catalog {
  import opened Wrappers

  datatype Flower = Flower(name: string, price: nat, styles: seq<string>)

  /** The catalog, in declaration order (which is also `Object.keys` order). */
  const FlowerData: seq<Flower> := [
    Flower("Rose Pink O'Hara", 100, ["Romantic", "Classic"]),
    Flower("Rose Caramel", 60, ["Classic", "Vibrant"]),
    Flower("Spray Rose", 60, ["Romantic"]),
    Flower("Chrysanthemum", 40, ["Classic", "Vibrant"]),
    Flower("Eustoma Alissa", 40, ["Romantic"]),
    Flower("Dianthus", 30, ["Vibrant", "Classic"]),
    Flower("Peony", 200, ["Romantic"]),
    Flower("Hydrangea", 200, ["Classic"]),
    Flower("Protea", 200, ["Vibrant", "Exotic"]),
    Flower("Greenery", 20, ["Romantic", "Classic", "Vibrant"])
  ]

  /** The lowest price in FlowerData (Greenery). */
  const CheapestPrice: nat := 20

  /** Property keys of an object literal are unique. */
  ghost predicate DistinctNames(fs: seq<Flower>) {
    forall i, j :: 0 <= i < j < |fs| ==> fs[i].name != fs[j].name
  }

  /** What the selector needs of a catalog: unique names and positive prices. */
  ghost predicate WellFormed(fs: seq<Flower>) {
    DistinctNames(fs) && forall f :: f in fs ==> f.price > 0
  }

  /** Every key of FlowerData is unique. */
  lemma FlowerDataNamesDistinct()
    ensures DistinctNames(FlowerData)
  {
  }

  /** Every price in FlowerData is at least CheapestPrice, and Greenery costs exactly that. */
  lemma FlowerDataPrices()
    ensures forall f :: f in FlowerData ==> CheapestPrice <= f.price
    ensures FlowerData[9].price == CheapestPrice
  {
  }

  /** No name in FlowerData contains a comma. */
  lemma FlowerDataNamesCommaFree()
    ensures forall f :: f in FlowerData ==> ',' !in f.name
  {
    forall i | 0 <= i < |FlowerData| ensures ',' !in FlowerData[i].name {
      var name := FlowerData[i].name;
      assert forall k :: 0 <= k < |name| ==> name[k] != ',';
    }
  }

  /** FlowerData meets what the selector needs of a catalog. */
  lemma FlowerDataWellFormed()
    ensures WellFormed(FlowerData)
  {
    FlowerDataNamesDistinct();
    FlowerDataPrices();
  }

  /** `flowerData[name]`: the entry whose key is `name`, if there is one. */
  function LookupIn(fs: seq<Flower>, name: string): (r: Option<Flower>)
    ensures r.Some? ==> r.value in fs && r.value.name == name
    ensures r.None? ==> forall f :: f in fs ==> f.name != name
  {
    if fs == [] then None
    else if fs[0].name == name then Some(fs[0])
    else LookupIn(fs[1..], name)
  }

  /** With unique keys, looking up a listed flower's name finds that flower. */
  lemma {:induction false} LookupInFinds(fs: seq<Flower>, f: Flower)
    requires DistinctNames(fs)
    requires f in fs
    ensures LookupIn(fs, f.name) == Some(f)
  {
    if fs[0] != f {
      assert f in fs[1..];
      assert DistinctNames(fs[1..]) by {
        forall i, j | 0 <= i < j < |fs[1..]| ensures fs[1..][i].name != fs[1..][j].name {
          assert fs[1..][i] == fs[i + 1] && fs[1..][j] == fs[j + 1];
        }
      }
      LookupInFinds(fs[1..], f);
    }
  }

  /** The price of the flower named `name`; 0 for a name the catalog lacks
      (such a name never enters a composition). */
  function PriceIn(fs: seq<Flower>, name: string): nat {
    match LookupIn(fs, name)
    case Some(f) => f.price
    case None => 0
  }

  /** True when the entry named `name` lists `style` among its tags. */
  predicate CarriesIn(fs: seq<Flower>, name: string, style: string) {
    match LookupIn(fs, name)
    case Some(f) => style in f.styles
    case None => false
  }

  /** `r` is `fs` with some entries removed and the rest left in their order. */
  ghost predicate SubsequenceOf(r: seq<Flower>, fs: seq<Flower>)
    decreases |fs|
  {
    if r == [] then true
    else if fs == [] then false
    else (r[0] == fs[0] && SubsequenceOf(r[1..], fs[1..])) || SubsequenceOf(r, fs[1..])
  }

  /** The entries whose style list contains `style`, in catalog order:
      `Object.keys(flowerData).filter(f => flowerData[f].style.includes(style))`. */
  function FilterByStyle(fs: seq<Flower>, style: string): (r: seq<Flower>)
    ensures forall f :: f in r <==> f in fs && style in f.styles
    ensures |r| <= |fs|
  {
    if fs == [] then []
    else if style in fs[0].styles then [fs[0]] + FilterByStyle(fs[1..], style)
    else FilterByStyle(fs[1..], style)
  }

  /** The filter keeps the suitable entries in catalog order. */
  lemma {:induction false} FilterByStyleInOrder(fs: seq<Flower>, style: string)
    ensures SubsequenceOf(FilterByStyle(fs, style), fs)
  {
    if fs != [] {
      FilterByStyleInOrder(fs[1..], style);
      var r := FilterByStyle(fs, style);
      if style in fs[0].styles {
        assert r[1..] == FilterByStyle(fs[1..], style);
      }
    }
  }

  /** A filtered flower is a catalog flower that carries the style, at its catalog price. */
  lemma FilteredCarries(fs: seq<Flower>, style: string, f: Flower)
    requires DistinctNames(fs)
    requires f in FilterByStyle(fs, style)
    ensures f in fs && CarriesIn(fs, f.name, style) && PriceIn(fs, f.name) == f.price
  {
    LookupInFinds(fs, f);
  }

  /** `suitableFlowers.length === 0` holds exactly for the styles no entry lists. */
  lemma NoneFilteredIffNoMatch(fs: seq<Flower>, style: string)
    ensures FilterByStyle(fs, style) == [] <==> forall f :: f in fs ==> style !in f.styles
  {
    var s := FilterByStyle(fs, style);
    if s != [] {
      assert s[0] in s;
    }
  }
}
