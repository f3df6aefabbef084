/**
  `calculateComposition(budget, style)` of server.js: set aside 70% of the
  budget for flowers, keep the catalog entries that carry the requested style,
  and make fifteen random draws among them; a draw the remaining money covers
  adds one stem of that flower and pays for it, any other draw does nothing.

  The catalog is passed in as `catalog` (the source reads the global
  `flowerData`, which is Catalog.FlowerData); the facts used about it are
  Catalog.WellFormed. `Math.random()` is injected: the caller passes the fifteen values in [0, 1)
  that the draws would have used, so the selection is a function of its inputs.
  The composition is the JavaScript object the source fills in, kept as its
  entries in insertion order (the order `Object.entries` reports them in).
 */
module Selector {
  import opened Catalog

  /** Number of draws the loop makes (the `i < 15` bound). */
  const Draws: nat := 15

  /** Share of the budget spent on flowers (`budget * 0.7`). */
  const FlowerShare: real := 0.7

  /** One own property of the composition object: a flower name and its stem count. */
  datatype Entry = Entry(name: string, count: nat)

  /** The composition object's entries, in insertion order. */
  type Composition = seq<Entry>

  /** The money and the composition as they stand between two draws. */
  datatype Selection = Selection(composition: Composition, remaining: real)

  function Names(c: Composition): (r: seq<string>)
    ensures |r| == |c|
    ensures forall i :: 0 <= i < |c| ==> r[i] == c[i].name
  {
    if c == [] then [] else [c[0].name] + Names(c[1..])
  }

  ghost predicate Distinct(names: seq<string>) {
    forall i, j :: 0 <= i < j < |names| ==> names[i] != names[j]
  }

  /** `composition[name] || 0`, summed over entries so that it is defined on any sequence. */
  function CountOf(c: Composition, name: string): nat {
    if c == [] then 0
    else (if c[0].name == name then c[0].count else 0) + CountOf(c[1..], name)
  }

  /** Sum of all stem counts. */
  function TotalCount(c: Composition): nat {
    if c == [] then 0 else c[0].count + TotalCount(c[1..])
  }

  /** Money spent on a composition: count times catalog price, summed. */
  function Spent(catalog: seq<Flower>, c: Composition): int {
    if c == [] then 0 else c[0].count * PriceIn(catalog, c[0].name) + Spent(catalog, c[1..])
  }

  /** `composition[name] = (composition[name] || 0) + 1`: an existing key keeps
      its place and gains one; a new key is appended with count 1. */
  function Bump(c: Composition, name: string): Composition {
    if c == [] then [Entry(name, 1)]
    else if c[0].name == name then [Entry(name, c[0].count + 1)] + c[1..]
    else [c[0]] + Bump(c[1..], name)
  }

  /** Bump keeps the insertion order: the keys are unchanged, or `name` is appended. */
  lemma {:induction false} BumpNames(c: Composition, name: string)
    ensures Names(Bump(c, name)) == if name in Names(c) then Names(c) else Names(c) + [name]
  {
    if c != [] && c[0].name != name {
      BumpNames(c[1..], name);
      assert Names(c) == [c[0].name] + Names(c[1..]);
      assert name in Names(c) <==> name in Names(c[1..]);
    }
  }

  /** Bump adds one stem of `name` and none of any other flower. */
  lemma {:induction false} BumpCount(c: Composition, name: string, other: string)
    ensures CountOf(Bump(c, name), other) == CountOf(c, other) + (if other == name then 1 else 0)
  {
    if c != [] && c[0].name != name {
      BumpCount(c[1..], name, other);
    } else if c != [] {
      assert Bump(c, name)[1..] == c[1..];
    }
  }

  /** Bump adds exactly one stem in all. */
  lemma {:induction false} BumpTotal(c: Composition, name: string)
    ensures TotalCount(Bump(c, name)) == TotalCount(c) + 1
  {
    if c != [] && c[0].name != name {
      BumpTotal(c[1..], name);
    } else if c != [] {
      assert Bump(c, name)[1..] == c[1..];
    }
  }

  /** Bump costs exactly one more stem of `name`. */
  lemma {:induction false} BumpSpent(catalog: seq<Flower>, c: Composition, name: string)
    ensures Spent(catalog, Bump(c, name)) == Spent(catalog, c) + PriceIn(catalog, name)
  {
    if c != [] && c[0].name != name {
      BumpSpent(catalog, c[1..], name);
    } else if c != [] {
      var b := Bump(c, name);
      assert b[1..] == c[1..];
      var k, p := c[0].count, PriceIn(catalog, name);
      assert b[0].count == k + 1;
      assert (k + 1) * p == k * p + p;
    }
  }

  /** Bump keeps every count positive. */
  lemma {:induction false} BumpPositive(c: Composition, name: string)
    requires forall i :: 0 <= i < |c| ==> c[i].count >= 1
    ensures forall i :: 0 <= i < |Bump(c, name)| ==> Bump(c, name)[i].count >= 1
  {
    if c != [] && c[0].name != name {
      BumpPositive(c[1..], name);
    }
  }

  /** `Math.floor(roll * n)` for a `roll` in [0, 1): an index into a list of length n. */
  function PickIndex(roll: real, n: nat): (k: nat)
    requires 0.0 <= roll < 1.0 && 0 < n
    ensures k < n
  {
    assert 0.0 <= roll * n as real < n as real by {
      assert roll * n as real < 1.0 * n as real;
    }
    (roll * n as real).Floor
  }

  /** The injected random values are what `Math.random()` returns: values in [0, 1). */
  predicate RollsInRange(rolls: seq<real>) {
    forall k :: 0 <= k < |rolls| ==> 0.0 <= rolls[k] < 1.0
  }

  /** One iteration of the loop body with `flower` drawn. */
  function Draw(s: Selection, flower: Flower): Selection {
    if s.remaining >= flower.price as real then
      Selection(Bump(s.composition, flower.name), s.remaining - flower.price as real)
    else s
  }

  /** The loop run over `rolls`, one draw per roll, in order. */
  function Run(start: Selection, suitable: seq<Flower>, rolls: seq<real>): Selection
    requires suitable != [] && RollsInRange(rolls)
    decreases |rolls|
  {
    if rolls == [] then start
    else
      var last := rolls[|rolls| - 1];
      Draw(Run(start, suitable, rolls[..|rolls| - 1]), suitable[PickIndex(last, |suitable|)])
  }

  /** The composition `calculateComposition(budget, style)` returns when
      `Math.random()` yields `rolls`. */
  function Select(catalog: seq<Flower>, budget: real, style: string, rolls: seq<real>): Composition
    requires RollsInRange(rolls)
  {
    var suitable := FilterByStyle(catalog, style);
    if suitable == [] then []
    else Run(Selection([], budget * FlowerShare), suitable, rolls).composition
  }

  /** What holds after `draws` iterations with spending cap `cap`: every key
      is distinct, has a positive count and names a catalog flower carrying
      `style`; the money left plus the money spent is the cap; no more stems
      than draws; and money is never overdrawn once something is bought. */
  ghost predicate Consistent(catalog: seq<Flower>, s: Selection, cap: real, style: string, draws: nat) {
    && Distinct(Names(s.composition))
    && (forall i :: 0 <= i < |s.composition| ==>
          s.composition[i].count >= 1 && CarriesIn(catalog, s.composition[i].name, style))
    && s.remaining + Spent(catalog, s.composition) as real == cap
    && TotalCount(s.composition) <= draws
    && (s.composition != [] ==> s.remaining >= 0.0)
  }

  /** A draw of a suitable flower keeps the selection consistent. */
  lemma DrawKeepsConsistent(catalog: seq<Flower>, s: Selection, flower: Flower, cap: real, style: string, draws: nat)
    requires DistinctNames(catalog)
    requires Consistent(catalog, s, cap, style, draws)
    requires flower in FilterByStyle(catalog, style)
    ensures Consistent(catalog, Draw(s, flower), cap, style, draws + 1)
  {
    FilteredCarries(catalog, style, flower);
    if s.remaining >= flower.price as real {
      var c := s.composition;
      var b := Bump(c, flower.name);
      BumpNames(c, flower.name);
      BumpTotal(c, flower.name);
      BumpSpent(catalog, c, flower.name);
      BumpPositive(c, flower.name);
      assert Names(b) == Names(c) + [flower.name] ==> Distinct(Names(b)) by {
        if Names(b) == Names(c) + [flower.name] {
          assert flower.name !in Names(c);
          forall i, j | 0 <= i < j < |Names(b)| ensures Names(b)[i] != Names(b)[j] {
            if j < |Names(c)| {
              assert Names(b)[i] == Names(c)[i] && Names(b)[j] == Names(c)[j];
            } else {
              assert Names(b)[i] == Names(c)[i];
            }
          }
        }
      }
      forall i | 0 <= i < |b| ensures CarriesIn(catalog, b[i].name, style) {
        assert b[i].name == Names(b)[i];
        if i < |c| {
          assert Names(b)[i] == Names(c)[i];
        }
      }
    }
  }

  /** The loop keeps the selection consistent whatever the draws. */
  lemma {:induction false} RunConsistent(catalog: seq<Flower>, style: string, cap: real, rolls: seq<real>)
    requires DistinctNames(catalog)
    requires FilterByStyle(catalog, style) != [] && RollsInRange(rolls)
    ensures Consistent(catalog, Run(Selection([], cap), FilterByStyle(catalog, style), rolls), cap, style, |rolls|)
  {
    if rolls != [] {
      var suitable := FilterByStyle(catalog, style);
      var prefix := rolls[..|rolls| - 1];
      RunConsistent(catalog, style, cap, prefix);
      DrawKeepsConsistent(catalog, Run(Selection([], cap), suitable, prefix),
        suitable[PickIndex(rolls[|rolls| - 1], |suitable|)], cap, style, |prefix|);
    }
  }

  /** The properties the selection promises, for any injected random values:
      distinct keys with positive counts, every key a catalog flower of the
      requested style, at most one stem per draw, and no more spent than 70%
      of a non-negative budget. */
  lemma SelectProperties(catalog: seq<Flower>, budget: real, style: string, rolls: seq<real>)
    requires DistinctNames(catalog) && RollsInRange(rolls)
    ensures var c := Select(catalog, budget, style, rolls);
      && Distinct(Names(c))
      && (forall i :: 0 <= i < |c| ==> c[i].count >= 1 && CarriesIn(catalog, c[i].name, style))
      && TotalCount(c) <= |rolls|
      && (budget >= 0.0 ==> Spent(catalog, c) as real <= budget * FlowerShare)
  {
    if FilterByStyle(catalog, style) != [] {
      RunConsistent(catalog, style, budget * FlowerShare, rolls);
    }
  }

  /** A style that no catalog entry lists yields the empty composition,
      whatever the budget and the random values. */
  lemma UnknownStyleSelectsNothing(catalog: seq<Flower>, budget: real, style: string, rolls: seq<real>)
    requires RollsInRange(rolls)
    requires forall f :: f in catalog ==> style !in f.styles
    ensures Select(catalog, budget, style, rolls) == []
  {
    NoneFilteredIffNoMatch(catalog, style);
  }

  /** The loop read front to back: the first roll is drawn first and the rest
      follow from the state it leaves. */
  lemma {:induction false} RunFirst(start: Selection, suitable: seq<Flower>, rolls: seq<real>)
    requires suitable != [] && RollsInRange(rolls) && rolls != []
    ensures Run(start, suitable, rolls)
         == Run(Draw(start, suitable[PickIndex(rolls[0], |suitable|)]), suitable, rolls[1..])
  {
    if |rolls| > 1 {
      var prefix := rolls[..|rolls| - 1];
      RunFirst(start, suitable, prefix);
      assert prefix[1..] == rolls[1..][..|rolls[1..]| - 1];
    }
  }

  /** A draw the remaining money does not cover changes nothing, and the loop
      goes on: the result is that of the remaining draws alone. */
  lemma UnaffordableDrawSkipped(start: Selection, suitable: seq<Flower>, rolls: seq<real>)
    requires suitable != [] && RollsInRange(rolls) && rolls != []
    requires start.remaining < suitable[PickIndex(rolls[0], |suitable|)].price as real
    ensures Run(start, suitable, rolls) == Run(start, suitable, rolls[1..])
  {
    RunFirst(start, suitable, rolls);
  }

  /** Prices are positive, so a draw changes the state exactly when it is
      affordable, and then strictly lowers the money left by the flower's price. */
  lemma AcceptedDrawSpends(catalog: seq<Flower>, s: Selection, flower: Flower)
    requires WellFormed(catalog) && flower in catalog
    ensures Draw(s, flower) != s <==> s.remaining >= flower.price as real
    ensures Draw(s, flower) != s ==>
      Draw(s, flower).remaining == s.remaining - flower.price as real < s.remaining
  {
    assert flower.price > 0;
  }

  /** While the money left is below every suitable price, no draw is accepted. */
  lemma {:induction false} RunBelowEveryPrice(start: Selection, suitable: seq<Flower>, rolls: seq<real>)
    requires suitable != [] && RollsInRange(rolls)
    requires forall f :: f in suitable ==> start.remaining < f.price as real
    ensures Run(start, suitable, rolls) == start
  {
    if rolls != [] {
      RunBelowEveryPrice(start, suitable, rolls[..|rolls| - 1]);
      var f := suitable[PickIndex(rolls[|rolls| - 1], |suitable|)];
      assert f in suitable;
    }
  }

  /** A budget whose 70% share is below every catalog price buys nothing;
      in particular a budget of 0 or less. */
  lemma SmallBudgetSelectsNothing(catalog: seq<Flower>, budget: real, style: string, rolls: seq<real>)
    requires RollsInRange(rolls)
    requires forall f :: f in catalog ==> budget * FlowerShare < f.price as real
    ensures Select(catalog, budget, style, rolls) == []
  {
    var suitable := FilterByStyle(catalog, style);
    if suitable != [] {
      RunBelowEveryPrice(Selection([], budget * FlowerShare), suitable, rolls);
    }
  }

  /** With the source's own table: a budget below 20 / 0.7 (so any budget of
      0 or less) buys nothing, and the composition is empty for every style
      other than Romantic, Classic, Vibrant and Exotic. */
  lemma FlowerDataSelectsNothing(budget: real, style: string, rolls: seq<real>)
    requires RollsInRange(rolls)
    requires budget * FlowerShare < CheapestPrice as real
          || style !in {"Romantic", "Classic", "Vibrant", "Exotic"}
    ensures Select(FlowerData, budget, style, rolls) == []
  {
    if budget * FlowerShare < CheapestPrice as real {
      FlowerDataPrices();
      SmallBudgetSelectsNothing(FlowerData, budget, style, rolls);
    } else {
      assert forall f :: f in FlowerData ==> style !in f.styles;
      UnknownStyleSelectsNothing(FlowerData, budget, style, rolls);
    }
  }

  /** `calculateComposition(budget, style)` as the source writes it: the
      running balance and the composition object are updated in place over
      exactly fifteen iterations, with no early exit. */
  method CalculateComposition(catalog: seq<Flower>, budget: real, style: string, rolls: seq<real>)
    returns (composition: Composition)
    requires DistinctNames(catalog)
    requires |rolls| == Draws && RollsInRange(rolls)
    ensures composition == Select(catalog, budget, style, rolls)
    ensures Distinct(Names(composition))
    ensures forall i :: 0 <= i < |composition| ==>
      composition[i].count >= 1 && CarriesIn(catalog, composition[i].name, style)
    ensures TotalCount(composition) <= Draws
    ensures budget >= 0.0 ==> Spent(catalog, composition) as real <= budget * FlowerShare
  {
    var remainingBudget := budget * FlowerShare;
    composition := [];
    var suitableFlowers := FilterByStyle(catalog, style);
    if |suitableFlowers| == 0 {
      return;
    }
    for i := 0 to Draws
      invariant Selection(composition, remainingBudget)
             == Run(Selection([], budget * FlowerShare), suitableFlowers, rolls[..i])
    {
      var flower := suitableFlowers[PickIndex(rolls[i], |suitableFlowers|)];
      ghost var before := Selection(composition, remainingBudget);
      if remainingBudget >= flower.price as real {
        composition := Bump(composition, flower.name);
        remainingBudget := remainingBudget - flower.price as real;
      }
      assert Selection(composition, remainingBudget) == Draw(before, flower);
      assert rolls[..i + 1][..i] == rolls[..i] && rolls[..i + 1][i] == rolls[i];
    }
    assert rolls[..Draws] == rolls;
    SelectProperties(catalog, budget, style, rolls);
  }
}
