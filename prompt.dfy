/**
  `createPrompt(composition, style, occasion, packaging)` of server.js: the
  composition is rendered as "<count> <name>" entries joined by ", " in
  insertion order; an empty rendering selects a generic template that leaves
  the choice to the florist, any other is quoted in the full template after
  "The composition must include: ". Style, occasion, packaging color and
  packaging type are lower-cased in both templates.
 */
module Prompt {
  import opened Text
  import opened Catalog
  import opened Selector

  /** The request's `packaging` object. Its `type` is called `kind` here, as
      `type` is a Dafny keyword. */
  datatype Packaging = Packaging(kind: string, color: string)

  /** The fixed text of the two templates, clause by clause. Concatenated as
      in CreatePrompt they spell the template literals of server.js exactly;
      they are named so that facts about them are proved once, below. */
  const Photo := "Photorealistic studio quality photo. "
  const Beautiful := "A beautiful, "
  const BouquetFor := " flower bouquet for a "
  const FloristsChoice := ", based on the florist's choice. "
  const CompositionClause := "The composition must include"
  const WrappedIn := "The bouquet is wrapped in "
  const Lighting := "Clean, professional lighting"
  const Background := " on a neutral background."
  const Focus := " Focus on the texture and details of the flowers."

  /** `${count} ${name}` for one entry. */
  function RenderEntry(e: Entry): string {
    NatToDecimal(e.count) + " " + e.name
  }

  function RenderEntries(c: Composition): seq<string> {
    seq(|c|, i requires 0 <= i < |c| => RenderEntry(c[i]))
  }

  /** `Object.entries(composition).map(([name, count]) => `${count} ${name}`).join(', ')`. */
  function CompositionString(c: Composition): string {
    Join(RenderEntries(c), ", ")
  }

  /** Reads one rendered entry back: the digits before the first space, and the name after it. */
  function ParseEntry(s: string): Entry {
    var k := IndexOf(s, ' ');
    Entry(if k < |s| then s[k + 1..] else "", DecimalValue(s[..k]))
  }

  /** Reads a rendered composition back into its entries. */
  function ParseComposition(s: string): Composition {
    if s == "" then []
    else
      var parts := SplitAtCommas(s);
      seq(|parts|, i requires 0 <= i < |parts| => ParseEntry(parts[i]))
  }

  /** An entry's rendering determines the entry. */
  lemma EntryRoundTrip(e: Entry)
    ensures ParseEntry(RenderEntry(e)) == e
  {
    var digits := NatToDecimal(e.count);
    assert forall j :: 0 <= j < |digits| ==> digits[j] != ' ';
    IndexOfAfter(digits, " " + e.name, ' ');
    AppendAssoc(digits, " ", e.name);
    var s := RenderEntry(e);
    assert s[..|digits|] == digits;
    assert s[|digits| + 1..] == e.name;
    DecimalRoundTrip(e.count);
  }

  /** The composition string lists every entry, in insertion order, so that
      the composition can be read back from it when no name holds a comma. */
  lemma CompositionStringRoundTrip(c: Composition)
    requires forall i :: 0 <= i < |c| ==> ',' !in c[i].name
    ensures ParseComposition(CompositionString(c)) == c
  {
    if c != [] {
      var parts := RenderEntries(c);
      forall i | 0 <= i < |parts| ensures ',' !in parts[i] {
        var digits := NatToDecimal(c[i].count);
        assert parts[i] == digits + " " + c[i].name;
        assert forall j :: 0 <= j < |digits| ==> digits[j] != ',';
      }
      SplitJoin(parts);
      assert CompositionString(c) != "" by {
        assert |Join(parts, ", ")| >= |parts[0]| >= 1;
      }
      forall i | 0 <= i < |c| ensures ParseEntry(parts[i]) == c[i] {
        EntryRoundTrip(c[i]);
      }
    }
  }

  /** The composition string is empty exactly when the composition is
      (which is what `!compositionString` tests). */
  lemma CompositionStringEmptyIff(c: Composition)
    ensures CompositionString(c) == "" <==> c == []
  {
    if c != [] {
      var parts := RenderEntries(c);
      assert |parts[0]| >= 1;
      assert |Join(parts, ", ")| >= |parts[0]|;
    }
  }

  /** The opening both templates share: "... A beautiful, <style> flower bouquet for a <occasion>". */
  function Opening(style: string, occasion: string): string {
    Photo + Beautiful + ToLower(style) + BouquetFor + ToLower(occasion)
  }

  /** "<color> <type>", both lower-cased. */
  function Wrapping(packaging: Packaging): string
  {
    ToLower(packaging.color) + " " + ToLower(packaging.kind)
  }

  /** `createPrompt(composition, style, occasion, packaging)`. */
  function CreatePrompt(c: Composition, style: string, occasion: string, packaging: Packaging): string
  {
    var compositionString := CompositionString(c);
    if compositionString == "" then
      Opening(style, occasion) + FloristsChoice
        + WrappedIn + Wrapping(packaging) + ". "
        + Lighting + Background
    else
      Opening(style, occasion) + ". " + CompositionClause + ": " + compositionString + ". "
        + WrappedIn + Wrapping(packaging) + ". "
        + Lighting + Background + Focus
  }

  /** Every capital T in `s` begins "The b" (as in "The bouquet"). */
  ghost predicate EveryTBeginsTheB(s: string) {
    forall i :: 0 <= i < |s| && s[i] == 'T' ==> i + 4 < |s| && s[i + 4] == 'b'
  }

  lemma ConcatEveryTBeginsTheB(a: string, b: string)
    requires EveryTBeginsTheB(a) && EveryTBeginsTheB(b)
    ensures EveryTBeginsTheB(a + b)
  {
    forall i | 0 <= i < |a + b| && (a + b)[i] == 'T' ensures i + 4 < |a + b| && (a + b)[i + 4] == 'b' {
      if i < |a| {
        assert a[i] == 'T';
      } else {
        assert b[i - |a|] == 'T';
      }
    }
  }

  lemma NoTInLower(s: string)
    ensures 'T' !in ToLower(s)
  {
  }

  lemma NoTInOpeningText()
    ensures 'T' !in Photo && 'T' !in Beautiful && 'T' !in BouquetFor
  {
  }

  lemma NoTInClosingText()
    ensures 'T' !in FloristsChoice && 'T' !in Lighting && 'T' !in Background
  {
  }

  /** The one capital T of WrappedIn begins "The bouquet". */
  lemma WrappedInTs()
    ensures EveryTBeginsTheB(WrappedIn)
  {
    forall i | 0 <= i < |WrappedIn| && WrappedIn[i] == 'T' ensures i + 4 < |WrappedIn| && WrappedIn[i + 4] == 'b' {
    }
  }

  /** The generic prompt's only capital T is that of "The bouquet". */
  lemma GenericPromptTs(style: string, occasion: string, packaging: Packaging)
    ensures EveryTBeginsTheB(CreatePrompt([], style, occasion, packaging))
  {
    NoTInLower(style);
    NoTInLower(occasion);
    NoTInLower(packaging.color);
    NoTInLower(packaging.kind);
    NoTInOpeningText();
    NoTInClosingText();
    WrappedInTs();
    CompositionStringEmptyIff([]);
    var before := Opening(style, occasion) + FloristsChoice;
    assert 'T' !in before;
    var after := Wrapping(packaging) + ". " + Lighting + Background;
    assert 'T' !in after;
    ConcatEveryTBeginsTheB(before, WrappedIn);
    ConcatEveryTBeginsTheB(before + WrappedIn, after);
    assert CreatePrompt([], style, occasion, packaging) == before + WrappedIn + after;
  }

  /** With an empty composition the prompt is the generic one, which never
      mentions "The composition must include", whatever the request's text. */
  lemma GenericPromptOmitsComposition(style: string, occasion: string, packaging: Packaging)
    ensures !IsInfix(CompositionClause, CreatePrompt([], style, occasion, packaging))
  {
    GenericPromptTs(style, occasion, packaging);
    assert CompositionClause[0] == 'T' && CompositionClause[4] == 'c';
  }

  /** A non-empty composition is quoted in full after "The composition must include: ". */
  lemma FullPromptQuotesComposition(c: Composition, style: string, occasion: string, packaging: Packaging)
    requires c != []
    ensures IsInfix(CompositionClause + ": " + CompositionString(c), CreatePrompt(c, style, occasion, packaging))
  {
    CompositionStringEmptyIff(c);
    var cs := CompositionString(c);
    var front := Opening(style, occasion) + ". ";
    var quoted := CompositionClause + ": " + cs;
    AppendAssoc(front, CompositionClause, ": ");
    AppendAssoc(front, CompositionClause + ": ", cs);
    var s := front + quoted;
    OccursAtEnd(front, quoted);
    OccursAtExtend(quoted, s, |front|, ". ");
    s := s + ". ";
    OccursAtExtend(quoted, s, |front|, WrappedIn);
    s := s + WrappedIn;
    OccursAtExtend(quoted, s, |front|, Wrapping(packaging));
    s := s + Wrapping(packaging);
    OccursAtExtend(quoted, s, |front|, ". ");
    s := s + ". ";
    OccursAtExtend(quoted, s, |front|, Lighting);
    s := s + Lighting;
    OccursAtExtend(quoted, s, |front|, Background);
    s := s + Background;
    OccursAtExtend(quoted, s, |front|, Focus);
    s := s + Focus;
    assert s == CreatePrompt(c, style, occasion, packaging);
  }

  /** The prompt names the composition exactly when there is one. */
  lemma PromptMentionsCompositionIff(c: Composition, style: string, occasion: string, packaging: Packaging)
    ensures IsInfix(CompositionClause, CreatePrompt(c, style, occasion, packaging)) <==> c != []
  {
    if c == [] {
      GenericPromptOmitsComposition(style, occasion, packaging);
    } else {
      FullPromptQuotesComposition(c, style, occasion, packaging);
      var p := CreatePrompt(c, style, occasion, packaging);
      var quoted := CompositionClause + ": " + CompositionString(c);
      var i :| OccursAt(quoted, p, i);
      AppendAssoc(CompositionClause, ": ", CompositionString(c));
      OccursAtPrefix(CompositionClause, ": " + CompositionString(c), p, i);
    }
  }

  /** Both templates open with the lower-cased style and occasion and name the
      lower-cased packaging color followed by the lower-cased packaging type. */
  lemma PromptDescribesRequest(c: Composition, style: string, occasion: string, packaging: Packaging)
    ensures var p := CreatePrompt(c, style, occasion, packaging);
      && OccursAt(Photo + Beautiful + ToLower(style) + BouquetFor + ToLower(occasion), p, 0)
      && IsInfix(WrappedIn + ToLower(packaging.color) + " " + ToLower(packaging.kind), p)
  {
    var opening := Opening(style, occasion);
    var wrapping := Wrapping(packaging);
    var clause := WrappedIn + wrapping;
    CompositionStringEmptyIff(c);
    var front;
    if c == [] {
      front := opening + FloristsChoice;
      OccursAtStart(opening, FloristsChoice);
    } else {
      var cs := CompositionString(c);
      front := opening + ". ";
      OccursAtStart(opening, ". ");
      OccursAtExtend(opening, front, 0, CompositionClause);
      front := front + CompositionClause;
      OccursAtExtend(opening, front, 0, ": ");
      front := front + ": ";
      OccursAtExtend(opening, front, 0, cs);
      front := front + cs;
      OccursAtExtend(opening, front, 0, ". ");
      front := front + ". ";
    }
    var lc, lt := ToLower(packaging.color), ToLower(packaging.kind);
    AppendAssoc(WrappedIn, lc + " ", lt);
    AppendAssoc(WrappedIn, lc, " ");
    AppendAssoc(front, WrappedIn, wrapping);
    OccursAtEnd(front, clause);
    OccursAtExtend(opening, front, 0, clause);
    var s := front + clause;
    OccursAtExtend(clause, s, |front|, ". ");
    OccursAtExtend(opening, s, 0, ". ");
    s := s + ". ";
    OccursAtExtend(clause, s, |front|, Lighting);
    OccursAtExtend(opening, s, 0, Lighting);
    s := s + Lighting;
    OccursAtExtend(clause, s, |front|, Background);
    OccursAtExtend(opening, s, 0, Background);
    s := s + Background;
    if c != [] {
      OccursAtExtend(clause, s, |front|, Focus);
      OccursAtExtend(opening, s, 0, Focus);
      s := s + Focus;
    }
    assert s == CreatePrompt(c, style, occasion, packaging);
  }

  /** The prompt for a composition the selector returned lists that very
      composition: reading the composition string back gives it again. */
  lemma SelectedCompositionReadsBack(budget: real, style: string, rolls: seq<real>)
    requires RollsInRange(rolls)
    ensures var c := Select(FlowerData, budget, style, rolls);
      ParseComposition(CompositionString(c)) == c
  {
    var c := Select(FlowerData, budget, style, rolls);
    FlowerDataNamesDistinct();
    FlowerDataNamesCommaFree();
    SelectProperties(FlowerData, budget, style, rolls);
    forall i | 0 <= i < |c| ensures ',' !in c[i].name {
      assert CarriesIn(FlowerData, c[i].name, style);
      var f := LookupIn(FlowerData, c[i].name);
      assert f.Some? && f.value in FlowerData;
    }
    CompositionStringRoundTrip(c);
  }

  /** End to end: a style no catalog entry carries, or a budget whose 70%
      share is below the cheapest flower, always gets the generic prompt. */
  lemma UnservableRequestGetsGenericPrompt(budget: real, style: string, occasion: string, packaging: Packaging, rolls: seq<real>)
    requires RollsInRange(rolls)
    requires budget * FlowerShare < CheapestPrice as real
          || style !in {"Romantic", "Classic", "Vibrant", "Exotic"}
    ensures !IsInfix(CompositionClause, CreatePrompt(Select(FlowerData, budget, style, rolls), style, occasion, packaging))
  {
    FlowerDataSelectsNothing(budget, style, rolls);
    GenericPromptOmitsComposition(style, occasion, packaging);
  }
}
