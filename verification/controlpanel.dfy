/** The logic of components/ControlPanel.tsx: single-field edits of the
    options, the generate button's guard and the mode radio group. */
module ControlPanel {
  import opened Types

  /** The seven keys of the options record. */
  datatype Field =
    | MainRequestField | GenderField | AgeField | KeepIdField
    | RemakeHairField | RemakeClothesField | AdditionalRequestField

  /** A field's value, tagged by its type. */
  datatype Value = ModeValue(m: MainRequest) | GenderValue(g: Gender) | TextValue(s: string) | FlagValue(b: bool)

  /** A call `handleOptionChange(key, value)`. The source's type
      `RestorationOptions[K]` ties the value's type to the key; one
      constructor per key does the same here. */
  datatype Update =
    | SetMainRequest(m: MainRequest)
    | SetGender(g: Gender)
    | SetAge(age: string)
    | SetKeepId(keepId: bool)
    | SetRemakeHair(remakeHair: bool)
    | SetRemakeClothes(remakeClothes: bool)
    | SetAdditionalRequest(request: string)

  /** Reading one field. */
  function Get(o: Options, f: Field): Value
  {
    match f
    case MainRequestField => ModeValue(o.mainRequest)
    case GenderField => GenderValue(o.gender)
    case AgeField => TextValue(o.age)
    case KeepIdField => FlagValue(o.keepId)
    case RemakeHairField => FlagValue(o.remakeHair)
    case RemakeClothesField => FlagValue(o.remakeClothes)
    case AdditionalRequestField => TextValue(o.additionalRequest)
  }

  function KeyOf(u: Update): Field
  {
    match u
    case SetMainRequest(_) => MainRequestField
    case SetGender(_) => GenderField
    case SetAge(_) => AgeField
    case SetKeepId(_) => KeepIdField
    case SetRemakeHair(_) => RemakeHairField
    case SetRemakeClothes(_) => RemakeClothesField
    case SetAdditionalRequest(_) => AdditionalRequestField
  }

  function ValueOf(u: Update): Value
  {
    match u
    case SetMainRequest(m) => ModeValue(m)
    case SetGender(g) => GenderValue(g)
    case SetAge(a) => TextValue(a)
    case SetKeepId(b) => FlagValue(b)
    case SetRemakeHair(b) => FlagValue(b)
    case SetRemakeClothes(b) => FlagValue(b)
    case SetAdditionalRequest(r) => TextValue(r)
  }

  /** `setOptions(prev => ({ ...prev, [key]: value }))`: the updated field
      takes the new value and every other field keeps its value. */
  function Apply(o: Options, u: Update): (r: Options)
    ensures Get(r, KeyOf(u)) == ValueOf(u)
    ensures forall f :: f != KeyOf(u) ==> Get(r, f) == Get(o, f)
  {
    match u
    case SetMainRequest(m) => o.(mainRequest := m)
    case SetGender(g) => o.(gender := g)
    case SetAge(a) => o.(age := a)
    case SetKeepId(b) => o.(keepId := b)
    case SetRemakeHair(b) => o.(remakeHair := b)
    case SetRemakeClothes(b) => o.(remakeClothes := b)
    case SetAdditionalRequest(r) => o.(additionalRequest := r)
  }

  /** Applying the same edit twice is applying it once. */
  lemma ApplyIdempotent(o: Options, u: Update)
    ensures Apply(Apply(o, u), u) == Apply(o, u)
  {
  }

  /** Edits of two different fields commute. */
  lemma ApplyCommutes(o: Options, u: Update, v: Update)
    requires KeyOf(u) != KeyOf(v)
    ensures Apply(Apply(o, u), v) == Apply(Apply(o, v), u)
  {
  }

  /** A later edit of the same field overwrites an earlier one. */
  lemma LastEditWins(o: Options, u: Update, v: Update)
    requires KeyOf(u) == KeyOf(v)
    ensures Apply(Apply(o, u), v) == Apply(o, v)
  {
  }

  /** `disabled={isGenerating || !isImageUploaded}`, as the enabled state. */
  function GenerateEnabled(isGenerating: bool, isImageUploaded: bool): (enabled: bool)
    ensures enabled <==> isImageUploaded && !isGenerating
  {
    !(isGenerating || !isImageUploaded)
  }

  /** The five radios of the main-request group, in display order. */
  const Modes: seq<MainRequest> := [HighQuality, Original, DetailedFace, Portrait, Scenery]

  /** `checked={options.mainRequest === value}`. */
  predicate RadioChecked(o: Options, value: MainRequest)
  {
    o.mainRequest == value
  }

  /** How many of `radios` are checked. */
  function CheckedCount(o: Options, radios: seq<MainRequest>): nat
  {
    if |radios| == 0 then 0
    else (if RadioChecked(o, radios[0]) then 1 else 0) + CheckedCount(o, radios[1..])
  }

  /** No value occurs twice. */
  predicate Distinct(radios: seq<MainRequest>)
  {
    forall i, j :: 0 <= i < j < |radios| ==> radios[i] != radios[j]
  }

  /** Among radios with distinct values, one is checked if the chosen mode is
      among them and none otherwise. */
  lemma {:induction false} CheckedCountOfDistinct(o: Options, radios: seq<MainRequest>)
    requires Distinct(radios)
    ensures CheckedCount(o, radios) == if o.mainRequest in radios then 1 else 0
  {
    if |radios| > 0 {
      var rest := radios[1..];
      assert Distinct(rest) by {
        forall i, j | 0 <= i < j < |rest| ensures rest[i] != rest[j] {
          assert rest[i] == radios[i + 1] && rest[j] == radios[j + 1];
        }
      }
      CheckedCountOfDistinct(o, rest);
      assert radios == [radios[0]] + rest;
      if RadioChecked(o, radios[0]) {
        assert o.mainRequest !in rest by {
          forall j | 0 <= j < |rest| ensures rest[j] != o.mainRequest {
            assert rest[j] == radios[j + 1];
          }
        }
      }
    }
  }

  /** Every mode has a radio, and for any options exactly one radio is checked. */
  lemma ExactlyOneRadioChecked(o: Options)
    ensures forall m :: m in Modes
    ensures CheckedCount(o, Modes) == 1
  {
    forall m ensures m in Modes {
      match m
      case HighQuality => assert Modes[0] == m;
      case Original => assert Modes[1] == m;
      case DetailedFace => assert Modes[2] == m;
      case Portrait => assert Modes[3] == m;
      case Scenery => assert Modes[4] == m;
    }
    assert Distinct(Modes);
    CheckedCountOfDistinct(o, Modes);
  }

  /** Clicking a radio checks that radio and no other. */
  lemma ClickingRadioChecksIt(o: Options, m: MainRequest, other: MainRequest)
    ensures RadioChecked(Apply(o, SetMainRequest(m)), other) <==> other == m
  {
  }
}
