/** The prompt builder of services/geminiService.ts: a deterministic
    instruction string made from the restoration options. */
module Prompt {
  import opened Types

  const Preamble: string := "Please restore this old and damaged photo. "
  const ClosingSentence: string := "The output must be only the restored image, with no added text or watermarks."
  const KeepIdText: string := "It is crucial to keep all identifying marks like moles, scars, or unique facial features. Do not remove them. "
  const HairText: string := "Recreate the hair to look natural and detailed. "
  const ClothesText: string := "Recreate the clothing to look realistic and sharp. "

  const HighQualitySentence: string := "Restore to a very high quality, sharp, and clear image. Enhance details and fix colors."
  const OriginalSentence: string := "Restore the photo while preserving its original character and feel as much as possible. Focus on removing damage and noise."
  const DetailedFaceSentence: string := "Focus on recreating the face with high detail. Enhance eyes, skin texture, and fine features."
  const PortraitSentence: string := "Restore as a close-up portrait. The face should be the main focus."
  const ScenerySentence: string := "This is a landscape or scenery photo. Restore colors, remove damage, and enhance the overall view."

  /** The five-entry `requestMap` lookup. */
  function RequestText(m: MainRequest): string
  {
    match m
    case HighQuality => HighQualitySentence
    case Original => OriginalSentence
    case DetailedFace => DetailedFaceSentence
    case Portrait => PortraitSentence
    case Scenery => ScenerySentence
  }

  /** The string value the source stores for each gender. */
  function GenderName(g: Gender): string
  {
    match g
    case Male => "male"
    case Female => "female"
    case NotSpecified => "not_specified"
  }

  function SubjectText(g: Gender): string { "The subject is a " + GenderName(g) + ". " }

  const AgeOpen: string := "They are approximately "
  const AgeClose: string := " years old. "

  function AgeText(age: string): string { AgeOpen + age + AgeClose }

  const InstructionsOpen: string := "Follow these specific user instructions carefully: \""
  const InstructionsClose: string := "\". "

  function InstructionsText(request: string): string { InstructionsOpen + request + InstructionsClose }

  /** `buildPrompt`, step by step as the source appends to the prompt. A free
      text field is "present" when it is non-empty, as JavaScript truthiness
      of a string. */
  function BuildPrompt(o: Options): (prompt: string)
    ensures Preamble + RequestText(o.mainRequest) + " " <= prompt
    ensures EndsWith(prompt, ClosingSentence)
    ensures o.additionalRequest != "" ==> EndsWith(prompt, InstructionsText(o.additionalRequest) + ClosingSentence)
  {
    var p0 := Preamble;
    var p1 := p0 + RequestText(o.mainRequest) + " ";
    var p2 := AppendIf(p1, o.gender != NotSpecified, SubjectText(o.gender));
    var p3 := AppendIf(p2, o.age != "", AgeText(o.age));
    var p4 := AppendIf(p3, o.keepId, KeepIdText);
    var p5 := AppendIf(p4, o.remakeHair, HairText);
    var p6 := AppendIf(p5, o.remakeClothes, ClothesText);
    var p7 := AppendIf(p6, o.additionalRequest != "", InstructionsText(o.additionalRequest));
    AppendExtends(p1, p2, p3, p4, p5, p6, p7);
    EndsWithAppend(p7, ClosingSentence);
    EndsWithAppendPair(p6, InstructionsText(o.additionalRequest), ClosingSentence);
    p7 + ClosingSentence
  }

  /** One `if (...) prompt += text` step of the builder. */
  function AppendIf(prompt: string, wanted: bool, text: string): (r: string)
    ensures prompt <= r
  {
    if wanted then prompt + text else prompt
  }

  /** `t` is a suffix of `s`. */
  predicate EndsWith(s: string, t: string)
  {
    |t| <= |s| && s[|s| - |t|..] == t
  }

  lemma EndsWithAppend(s: string, t: string)
    ensures EndsWith(s + t, t)
  {
  }

  lemma EndsWithAppendPair(s: string, t: string, u: string)
    ensures EndsWith(s + t + u, t + u)
  {
  }

  /** Each optional append keeps what came before as a prefix. */
  lemma AppendExtends(p1: string, p2: string, p3: string, p4: string, p5: string, p6: string, p7: string)
    requires p1 <= p2 && p2 <= p3 && p3 <= p4 && p4 <= p5 && p5 <= p6 && p6 <= p7
    ensures p1 <= p7 + ClosingSentence
  {
  }

  /** Every mode has its own sentence: the lookup is injective. */
  lemma RequestTextInjective(a: MainRequest, b: MainRequest)
    requires RequestText(a) == RequestText(b)
    ensures a == b
  {
  }

  // ---------------------------------------------------------------------------
  // An independent reference: the prompt as an ordered list of clauses.

  /** One sentence group the builder may emit. */
  datatype Clause =
    | Opening
    | Mode(m: MainRequest)
    | Subject(g: Gender)
    | Age(age: string)
    | KeepMarks
    | Hair
    | Clothing
    | Instructions(request: string)
    | Closing

  /** The fixed position of each kind of clause in the prompt. */
  function Rank(c: Clause): nat
  {
    match c
    case Opening => 0
    case Mode(_) => 1
    case Subject(_) => 2
    case Age(_) => 3
    case KeepMarks => 4
    case Hair => 5
    case Clothing => 6
    case Instructions(_) => 7
    case Closing => 8
  }

  /** The text of one clause. */
  function Render(c: Clause): string
  {
    match c
    case Opening => Preamble
    case Mode(m) => RequestText(m) + " "
    case Subject(g) => SubjectText(g)
    case Age(a) => AgeText(a)
    case KeepMarks => KeepIdText
    case Hair => HairText
    case Clothing => ClothesText
    case Instructions(r) => InstructionsText(r)
    case Closing => ClosingSentence
  }

  /** Clauses strictly ordered by rank. */
  predicate Ordered(cs: seq<Clause>)
  {
    forall i, j :: 0 <= i < j < |cs| ==> Rank(cs[i]) < Rank(cs[j])
  }

  /** Every clause of the list ranks below `k`. */
  predicate RanksBelow(cs: seq<Clause>, k: nat)
  {
    forall i :: 0 <= i < |cs| ==> Rank(cs[i]) < k
  }

  /** The one-clause list when `wanted`, the empty list otherwise. */
  function Optional(wanted: bool, c: Clause): seq<Clause>
  {
    if wanted then [c] else []
  }

  /** Appending clauses of a higher rank keeps a list ordered. */
  lemma ExtendOrdered(cs: seq<Clause>, wanted: bool, c: Clause)
    requires Ordered(cs) && RanksBelow(cs, Rank(c))
    ensures Ordered(cs + Optional(wanted, c)) && RanksBelow(cs + Optional(wanted, c), Rank(c) + 1)
  {
  }

  /** The clause list of the prompt, appended in the order the builder appends
      its sentences. */
  function Clauses(o: Options): (cs: seq<Clause>)
    ensures |cs| >= 3 && cs[0] == Opening && cs[1] == Mode(o.mainRequest) && cs[|cs| - 1] == Closing
  {
    var c1 := [Opening, Mode(o.mainRequest)];
    var c2 := c1 + Optional(o.gender != NotSpecified, Subject(o.gender));
    var c3 := c2 + Optional(o.age != "", Age(o.age));
    var c4 := c3 + Optional(o.keepId, KeepMarks);
    var c5 := c4 + Optional(o.remakeHair, Hair);
    var c6 := c5 + Optional(o.remakeClothes, Clothing);
    var c7 := c6 + Optional(o.additionalRequest != "", Instructions(o.additionalRequest));
    c7 + [Closing]
  }

  /** Which optional clauses the prompt has: the gender clause iff a gender
      is given, the age clause iff the age is non-empty, the marks, hair and
      clothing clauses iff their flags are set, and the instructions iff the
      request is non-empty. */
  lemma ClausePresence(o: Options)
    ensures Subject(o.gender) in Clauses(o) <==> o.gender != NotSpecified
    ensures Age(o.age) in Clauses(o) <==> o.age != ""
    ensures KeepMarks in Clauses(o) <==> o.keepId
    ensures Hair in Clauses(o) <==> o.remakeHair
    ensures Clothing in Clauses(o) <==> o.remakeClothes
    ensures Instructions(o.additionalRequest) in Clauses(o) <==> o.additionalRequest != ""
  {
  }

  /** Clauses that carry a value carry the options' own: the age and the
      additional request are inserted verbatim. */
  lemma ClauseValues(o: Options)
    ensures forall m :: Mode(m) in Clauses(o) ==> m == o.mainRequest
    ensures forall g :: Subject(g) in Clauses(o) ==> g == o.gender
    ensures forall a :: Age(a) in Clauses(o) ==> a == o.age
    ensures forall r :: Instructions(r) in Clauses(o) ==> r == o.additionalRequest
  {
  }

  /** The clauses always come in the fixed order of their ranks: gender,
      age, identifying marks, hair, clothing, then the user's instructions. */
  lemma ClausesOrdered(o: Options)
    ensures Ordered(Clauses(o))
  {
    var c1 := [Opening, Mode(o.mainRequest)];
    var c2 := c1 + Optional(o.gender != NotSpecified, Subject(o.gender));
    var c3 := c2 + Optional(o.age != "", Age(o.age));
    var c4 := c3 + Optional(o.keepId, KeepMarks);
    var c5 := c4 + Optional(o.remakeHair, Hair);
    var c6 := c5 + Optional(o.remakeClothes, Clothing);
    var c7 := c6 + Optional(o.additionalRequest != "", Instructions(o.additionalRequest));
    ExtendOrdered(c1, o.gender != NotSpecified, Subject(o.gender));
    ExtendOrdered(c2, o.age != "", Age(o.age));
    ExtendOrdered(c3, o.keepId, KeepMarks);
    ExtendOrdered(c4, o.remakeHair, Hair);
    ExtendOrdered(c5, o.remakeClothes, Clothing);
    ExtendOrdered(c6, o.additionalRequest != "", Instructions(o.additionalRequest));
    ExtendOrdered(c7, true, Closing);
  }

  /** A non-empty additional request gives the last clause before the closing one. */
  lemma InstructionsComeLast(o: Options)
    requires o.additionalRequest != ""
    ensures var cs := Clauses(o); cs[|cs| - 2] == Instructions(o.additionalRequest)
  {
  }

  /** A portrait of a thirty-year-old woman, keeping identifying marks: the
      portrait sentence, the gender and age clauses and the marks clause,
      and nothing about hair or clothing. */
  lemma PortraitExample()
    ensures Clauses(Options(Portrait, Female, "30", true, false, false, "")) ==
      [Opening, Mode(Portrait), Subject(Female), Age("30"), KeepMarks, Closing]
  {
  }

  /** The text of a clause list under a rendering: the renderings of its
      clauses concatenated in order. The structural lemmas below hold for
      every rendering, so they never look inside the sentences. */
  function Concat(cs: seq<Clause>, render: Clause -> string): string
  {
    if |cs| == 0 then "" else render(cs[0]) + Concat(cs[1..], render)
  }

  /** The text of a clause list. */
  function Flatten(cs: seq<Clause>): string
  {
    Concat(cs, Render)
  }

  lemma AppendAssoc(x: string, y: string, z: string)
    ensures x + (y + z) == x + y + z
  {
  }

  lemma {:induction false} ConcatAppend(a: seq<Clause>, b: seq<Clause>, render: Clause -> string)
    ensures Concat(a + b, render) == Concat(a, render) + Concat(b, render)
  {
    if |a| == 0 {
      assert a + b == b;
    } else {
      ConcatAppend(a[1..], b, render);
      assert (a + b)[1..] == a[1..] + b;
      assert (a + b)[0] == a[0];
      AppendAssoc(render(a[0]), Concat(a[1..], render), Concat(b, render));
    }
  }

  /** Appending an optional clause appends its text, if wanted. */
  lemma ConcatExtend(cs: seq<Clause>, wanted: bool, c: Clause, render: Clause -> string)
    ensures Concat(cs + Optional(wanted, c), render) == AppendIf(Concat(cs, render), wanted, render(c))
  {
    ConcatAppend(cs, Optional(wanted, c), render);
    if wanted {
      assert Concat([c], render) == render(c) + Concat([], render);
    } else {
      assert Concat(cs, render) + "" == Concat(cs, render);
    }
  }

  /** The builder's sequence of appends, with each clause's text taken from `render`. */
  function Assemble(o: Options, render: Clause -> string): string
  {
    var p1 := render(Opening) + render(Mode(o.mainRequest));
    var p2 := AppendIf(p1, o.gender != NotSpecified, render(Subject(o.gender)));
    var p3 := AppendIf(p2, o.age != "", render(Age(o.age)));
    var p4 := AppendIf(p3, o.keepId, render(KeepMarks));
    var p5 := AppendIf(p4, o.remakeHair, render(Hair));
    var p6 := AppendIf(p5, o.remakeClothes, render(Clothing));
    var p7 := AppendIf(p6, o.additionalRequest != "", render(Instructions(o.additionalRequest)));
    p7 + render(Closing)
  }

  /** Under any rendering, the clause list renders to the builder's appends. */
  lemma ClausesAssemble(o: Options, render: Clause -> string)
    ensures Concat(Clauses(o), render) == Assemble(o, render)
  {
    var c1 := [Opening, Mode(o.mainRequest)];
    var c2 := c1 + Optional(o.gender != NotSpecified, Subject(o.gender));
    var c3 := c2 + Optional(o.age != "", Age(o.age));
    var c4 := c3 + Optional(o.keepId, KeepMarks);
    var c5 := c4 + Optional(o.remakeHair, Hair);
    var c6 := c5 + Optional(o.remakeClothes, Clothing);
    var c7 := c6 + Optional(o.additionalRequest != "", Instructions(o.additionalRequest));
    assert Concat(c1, render) == render(Opening) + render(Mode(o.mainRequest)) by {
      assert c1[1..] == [Mode(o.mainRequest)];
      assert Concat(c1[1..], render) == render(Mode(o.mainRequest)) + Concat([], render);
    }
    ConcatExtend(c1, o.gender != NotSpecified, Subject(o.gender), render);
    ConcatExtend(c2, o.age != "", Age(o.age), render);
    ConcatExtend(c3, o.keepId, KeepMarks, render);
    ConcatExtend(c4, o.remakeHair, Hair, render);
    ConcatExtend(c5, o.remakeClothes, Clothing, render);
    ConcatExtend(c6, o.additionalRequest != "", Instructions(o.additionalRequest), render);
    ConcatExtend(c7, true, Closing, render);
    assert Clauses(o) == c7 + Optional(true, Closing);
  }

  /** With the real sentences, the appends are the builder's. */
  lemma BuildPromptAssembled(o: Options)
    ensures BuildPrompt(o) == Assemble(o, Render)
  {
    var p1 := Preamble + RequestText(o.mainRequest) + " ";
    assert Render(Opening) + Render(Mode(o.mainRequest)) == p1 by {
      AppendAssoc(Preamble, RequestText(o.mainRequest), " ");
    }
    assert Render(Subject(o.gender)) == SubjectText(o.gender);
    assert Render(Age(o.age)) == AgeText(o.age);
    assert Render(KeepMarks) == KeepIdText;
    assert Render(Hair) == HairText;
    assert Render(Clothing) == ClothesText;
    assert Render(Instructions(o.additionalRequest)) == InstructionsText(o.additionalRequest);
    assert Render(Closing) == ClosingSentence;
  }

  /** The builder's text is exactly the rendering of the clause list: the
      reference and the source-shaped definition agree on every input. */
  lemma PromptIsClauses(o: Options)
    ensures BuildPrompt(o) == Flatten(Clauses(o))
  {
    BuildPromptAssembled(o);
    ClausesAssemble(o, Render);
  }

  // ---------------------------------------------------------------------------
  // What the prompt does and does not determine.

  /** Options with nothing asked for; reading clauses fills them in. */
  const Blank: Options := Options(HighQuality, NotSpecified, "", false, false, false, "")

  /** The option a clause expresses, written into `o`. */
  function Absorb(o: Options, c: Clause): Options
  {
    match c
    case Opening => o
    case Mode(m) => o.(mainRequest := m)
    case Subject(g) => o.(gender := g)
    case Age(a) => o.(age := a)
    case KeepMarks => o.(keepId := true)
    case Hair => o.(remakeHair := true)
    case Clothing => o.(remakeClothes := true)
    case Instructions(r) => o.(additionalRequest := r)
    case Closing => o
  }

  /** Reads a clause list left to right into options. */
  function Read(cs: seq<Clause>, o: Options): Options
  {
    if |cs| == 0 then o else Read(cs[1..], Absorb(o, cs[0]))
  }

  /** The options a clause list expresses. */
  function OptionsOf(cs: seq<Clause>): Options
  {
    Read(cs, Blank)
  }

  lemma {:induction false} ReadAppend(a: seq<Clause>, b: seq<Clause>, o: Options)
    ensures Read(a + b, o) == Read(b, Read(a, o))
  {
    if |a| == 0 {
      assert a + b == b;
    } else {
      assert (a + b)[0] == a[0];
      assert (a + b)[1..] == a[1..] + b;
      ReadAppend(a[1..], b, Absorb(o, a[0]));
    }
  }

  /** Reading an optional clause absorbs it if it is there. */
  lemma ReadExtend(cs: seq<Clause>, wanted: bool, c: Clause, o: Options)
    ensures Read(cs + Optional(wanted, c), o) == if wanted then Absorb(Read(cs, o), c) else Read(cs, o)
  {
    ReadAppend(cs, Optional(wanted, c), o);
    if wanted {
      assert Read([c], Read(cs, o)) == Read([], Absorb(Read(cs, o), c));
    }
  }

  /** No option is lost at the clause level: the clause list determines the
      options it was built from. */
  lemma ClausesDetermineOptions(o: Options)
    ensures OptionsOf(Clauses(o)) == o
  {
    var c1 := [Opening, Mode(o.mainRequest)];
    var c2 := c1 + Optional(o.gender != NotSpecified, Subject(o.gender));
    var c3 := c2 + Optional(o.age != "", Age(o.age));
    var c4 := c3 + Optional(o.keepId, KeepMarks);
    var c5 := c4 + Optional(o.remakeHair, Hair);
    var c6 := c5 + Optional(o.remakeClothes, Clothing);
    var c7 := c6 + Optional(o.additionalRequest != "", Instructions(o.additionalRequest));
    assert Read(c1, Blank) == Blank.(mainRequest := o.mainRequest) by {
      assert c1[1..] == [Mode(o.mainRequest)];
      assert Read(c1, Blank) == Read([Mode(o.mainRequest)], Blank);
      assert [Mode(o.mainRequest)][1..] == [];
      assert Read([Mode(o.mainRequest)], Blank) == Read([], Blank.(mainRequest := o.mainRequest));
    }
    ReadExtend(c1, o.gender != NotSpecified, Subject(o.gender), Blank);
    ReadExtend(c2, o.age != "", Age(o.age), Blank);
    ReadExtend(c3, o.keepId, KeepMarks, Blank);
    ReadExtend(c4, o.remakeHair, Hair, Blank);
    ReadExtend(c5, o.remakeClothes, Clothing, Blank);
    ReadExtend(c6, o.additionalRequest != "", Instructions(o.additionalRequest), Blank);
    ReadExtend(c7, true, Closing, Blank);
    assert Clauses(o) == c7 + Optional(true, Closing);
  }

  lemma Regroup(pre: string, t: string, one: string, y: string, h: string, f: string, z: string, g: string, c: string)
    ensures pre + (t + (one + y + h + f) + y) + (f + z + g) + c
         == pre + (t + one + y) + h + (f + (y + f + z) + g) + c
  {
  }

  /** The prompt TEXT, unlike the clause list, does not determine the options:
      the age and the additional request are inserted without escaping, so
      free text can spell out clauses of its own. Here an age that embeds the
      hair clause and an opened instruction produces the same prompt as a
      plain age with the hair flag set. */
  lemma PromptDoesNotDetermineOptions()
    ensures exists a: Options, b: Options :: a != b && BuildPrompt(a) == BuildPrompt(b)
  {
    var a := Options(HighQuality, NotSpecified, "1" + AgeClose + HairText + InstructionsOpen,
                     false, false, false, "z");
    var b := Options(HighQuality, NotSpecified, "1", false, true, false,
                     AgeClose + InstructionsOpen + "z");
    assert a.remakeHair != b.remakeHair;
    var pre := Preamble + RequestText(HighQuality) + " ";
    assert BuildPrompt(a) == pre + AgeText(a.age) + InstructionsText("z") + ClosingSentence;
    assert BuildPrompt(b) == pre + AgeText("1") + HairText + InstructionsText(b.additionalRequest) + ClosingSentence;
    Regroup(pre, AgeOpen, "1", AgeClose, HairText, InstructionsOpen, "z", InstructionsClose, ClosingSentence);
  }
}
