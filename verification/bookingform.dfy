/**
 * The booking page's form logic: the service dropdown (every severity with
 * every service type, or just the one suggested by the self-assessment), the
 * service-details lookup, field edits and the pre-fill from a suggestion.
 */
module BookingForm {
  import opened Wrappers
  import opened SelfAssess
  import opened Text

  /** `severityLabels`, in its key order. */
  const SeverityKeys: seq<Category> := [Severe, Moderate, Light]

  function SeverityLabel(c: Category): string {
    match c
    case Severe => "🌊 Severe / Flooded Condition"
    case Moderate => "🚙 Moderate Condition"
    case Light => "🚗 Light Condition"
  }

  /** `serviceTypeLabels`, in its key order. */
  const TypeKeys: seq<ServiceType> := [InteriorOnly, ExteriorOnly, Both]

  function TypeLabel(t: ServiceType): string {
    match t
    case InteriorOnly => "Interior Only"
    case ExteriorOnly => "Exterior Only"
    case Both => "Full Service"
  }

  /** `${severityLabel} (${typeLabel})`. */
  function OptionLabel(c: Category, t: ServiceType): string {
    SeverityLabel(c) + " (" + TypeLabel(t) + ")"
  }

  /** One entry of the service dropdown. */
  datatype ServiceOption = ServiceOption(value: string, title: string, severity: Category, kind: ServiceType)

  function MakeOption(c: Category, t: ServiceType): ServiceOption {
    ServiceOption(OptionLabel(c, t), OptionLabel(c, t), c, t)
  }

  /** The `suggestedService` handed over by the assessment page. */
  datatype Suggestion = Suggestion(serviceType: ServiceType, category: Category, price: Option<nat>)

  /** An option is labelled consistently: value and label both spell out
      its severity and type. */
  predicate WellLabelled(o: ServiceOption) {
    o.value == o.title == OptionLabel(o.severity, o.kind)
  }

  /** The inner loop over service types for one severity. */
  function OptionsRow(c: Category, types: seq<ServiceType>): (r: seq<ServiceOption>)
    ensures |r| == |types|
    ensures forall j | 0 <= j < |r| :: r[j] == MakeOption(c, types[j])
  {
    if types == [] then [] else [MakeOption(c, types[0])] + OptionsRow(c, types[1..])
  }

  /** One row of three followed by the rows for the remaining severities. */
  lemma GridStep(cats: seq<Category>, row: seq<ServiceOption>, rest: seq<ServiceOption>)
    requires |cats| > 0 && |row| == 3 && |rest| == 3 * (|cats| - 1)
    requires forall j | 0 <= j < 3 :: row[j] == MakeOption(cats[0], TypeKeys[j])
    requires forall i | 0 <= i < |rest| :: rest[i] == MakeOption(cats[1..][i / 3], TypeKeys[i % 3])
    ensures forall i | 0 <= i < |row + rest| :: (row + rest)[i] == MakeOption(cats[i / 3], TypeKeys[i % 3])
  {
    forall i | 0 <= i < |row + rest| ensures (row + rest)[i] == MakeOption(cats[i / 3], TypeKeys[i % 3]) {
      if i < 3 {
        assert i / 3 == 0 && i % 3 == i;
      } else {
        var k := i - 3;
        assert (row + rest)[i] == rest[k];
        assert k / 3 == i / 3 - 1 && k % 3 == i % 3;
        assert cats[1..][k / 3] == cats[i / 3];
      }
    }
  }

  /** The outer loop over severities. */
  function OptionsGrid(cats: seq<Category>): (r: seq<ServiceOption>)
    ensures |r| == 3 * |cats|
    ensures forall i | 0 <= i < |r| :: r[i] == MakeOption(cats[i / 3], TypeKeys[i % 3])
  {
    if cats == [] then []
    else
      var row := OptionsRow(cats[0], TypeKeys);
      var rest := OptionsGrid(cats[1..]);
      GridStep(cats, row, rest);
      row + rest
  }

  /** `getDropdownOptions(suggestion)`. */
  function DropdownOptions(suggestion: Option<Suggestion>): (r: seq<ServiceOption>)
    ensures suggestion.Some? ==>
              |r| == 1 && r[0].severity == suggestion.value.category && r[0].kind == suggestion.value.serviceType
    ensures suggestion.None? ==>
              |r| == 9 && forall i | 0 <= i < 9 :: r[i].severity == SeverityKeys[i / 3] && r[i].kind == TypeKeys[i % 3]
    ensures forall i | 0 <= i < |r| :: WellLabelled(r[i])
  {
    match suggestion
    case Some(s) => [MakeOption(s.category, s.serviceType)]
    case None => OptionsGrid(SeverityKeys)
  }

  /** Without a suggestion every (severity, type) pair is offered. */
  lemma EveryPairOffered(c: Category, t: ServiceType)
    ensures exists i | 0 <= i < 9 :: DropdownOptions(None)[i].severity == c && DropdownOptions(None)[i].kind == t
  {
    var r := DropdownOptions(None);
    var a := match c case Severe => 0 case Moderate => 1 case Light => 2;
    var b := match t case InteriorOnly => 0 case ExteriorOnly => 1 case Both => 2;
    assert (3 * a + b) / 3 == a && (3 * a + b) % 3 == b;
    assert r[3 * a + b].severity == c && r[3 * a + b].kind == t;
  }

  /** Different (severity, type) pairs give different labels. */
  lemma {:induction false} OptionLabelInjective(c1: Category, t1: ServiceType, c2: Category, t2: ServiceType)
    requires OptionLabel(c1, t1) == OptionLabel(c2, t2)
    ensures c1 == c2 && t1 == t2
  {
    assert |OptionLabel(c1, t1)| == |SeverityLabel(c1)| + |TypeLabel(t1)| + 3;
    assert |OptionLabel(c2, t2)| == |SeverityLabel(c2)| + |TypeLabel(t2)| + 3;
    // the first letter of the type label tells "Interior" from "Exterior"
    assert OptionLabel(c1, t1)[|SeverityLabel(c1)| + 2] == TypeLabel(t1)[0];
    assert OptionLabel(c2, t2)[|SeverityLabel(c2)| + 2] == TypeLabel(t2)[0];
  }

  /** Every option value is unique within the dropdown, as React keys must be. */
  lemma DropdownValuesDistinct(suggestion: Option<Suggestion>)
    ensures var r := DropdownOptions(suggestion);
            forall i, j | 0 <= i < j < |r| :: r[i].value != r[j].value
  {
    var r := DropdownOptions(suggestion);
    forall i, j | 0 <= i < j < |r| ensures r[i].value != r[j].value {
      if r[i].value == r[j].value {
        OptionLabelInjective(r[i].severity, r[i].kind, r[j].severity, r[j].kind);
        GridIndexInjective(i, j);
      }
    }
  }

  /** A grid position is determined by its severity and its type. */
  lemma GridIndexInjective(i: nat, j: nat)
    requires i < 9 && j < 9
    requires SeverityKeys[i / 3] == SeverityKeys[j / 3] && TypeKeys[i % 3] == TypeKeys[j % 3]
    ensures i == j
  {
    assert i / 3 == j / 3;
    assert i % 3 == j % 3;
  }

  /** `options.find(opt => opt.value === service)`. */
  function FindByValue(options: seq<ServiceOption>, service: string): (r: Option<ServiceOption>)
    ensures r.Some? ==> r.value in options && r.value.value == service
    ensures r.None? <==> forall i | 0 <= i < |options| :: options[i].value != service
    ensures r.Some? ==> exists i | 0 <= i < |options| :: options[i] == r.value
                          && forall j | 0 <= j < i :: options[j].value != service
  {
    if options == [] then None
    else if options[0].value == service then Some(options[0])
    else
      var r := FindByValue(options[1..], service);
      assert r.Some? ==> exists i | 0 <= i < |options| :: options[i] == r.value
                          && forall j | 0 <= j < i :: options[j].value != service by {
        if r.Some? {
          var i :| 0 <= i < |options[1..]| && options[1..][i] == r.value
                   && forall j | 0 <= j < i :: options[1..][j].value != service;
          assert options[i + 1] == r.value;
        }
      }
      r
  }

  /** `selectedServiceInfo`: no selection for an empty service field. */
  function SelectedServiceInfo(options: seq<ServiceOption>, service: string): (r: Option<ServiceOption>)
    ensures service == "" ==> r.None?
    ensures r.Some? ==> r.value in options && r.value.value == service
    ensures service != "" && (exists i | 0 <= i < |options| :: options[i].value == service) ==> r.Some?
  {
    if service == "" then None else FindByValue(options, service)
  }

  /** The booking form fields. */
  datatype Field = Name | Contact | Date | Time | Service | Notes

  datatype Form = Form(name: string, contact: string, date: string, time: string, service: string, notes: string)

  const EmptyForm: Form := Form("", "", "", "", "", "")

  function Get(f: Form, field: Field): string {
    match field
    case Name => f.name
    case Contact => f.contact
    case Date => f.date
    case Time => f.time
    case Service => f.service
    case Notes => f.notes
  }

  function Set(f: Form, field: Field, v: string): (r: Form)
    ensures Get(r, field) == v
    ensures forall g | g != field :: Get(r, g) == Get(f, g)
  {
    match field
    case Name => f.(name := v)
    case Contact => f.(contact := v)
    case Date => f.(date := v)
    case Time => f.(time := v)
    case Service => f.(service := v)
    case Notes => f.(notes := v)
  }

  /** The page state this logic touches: the form and the displayed price. */
  datatype PageState = PageState(form: Form, price: string)

  /** `handleChange`: only the named field changes; choosing another service
      also clears the displayed price. */
  function HandleChange(st: PageState, field: Field, v: string): (r: PageState)
    ensures Get(r.form, field) == v
    ensures forall g | g != field :: Get(r.form, g) == Get(st.form, g)
    ensures field == Service ==> r.price == ""
    ensures field != Service ==> r.price == st.price
  {
    var form := Set(st.form, field, v);
    if field == Service then PageState(form, "") else PageState(form, st.price)
  }

  /** Decimal digits of `n`, as `${n}` prints a non-negative integer. */
  function Decimal(n: nat): (s: string)
    ensures |s| >= 1
    ensures forall i | 0 <= i < |s| :: IsDigit(s[i])
    ensures |s| > 1 ==> s[0] != '0'
    decreases n
  {
    if n < 10 then [DigitChar(n)]
    else Decimal(n / 10) + [DigitChar(n % 10)]
  }

  /** The number a string of decimal digits denotes. */
  function DecimalValue(s: string): nat
    requires forall i | 0 <= i < |s| :: IsDigit(s[i])
  {
    if s == [] then 0 else 10 * DecimalValue(s[..|s| - 1]) + DigitValue(s[|s| - 1])
  }

  /** `t` is a string of decimal digits denoting `n`. */
  predicate Denotes(t: string, n: nat) {
    (forall i | 0 <= i < |t| :: IsDigit(t[i])) && DecimalValue(t) == n
  }

  /** The printed price reads back as the price. */
  lemma {:induction false} DecimalRoundTrip(n: nat)
    ensures DecimalValue(Decimal(n)) == n
    decreases n
  {
    if n >= 10 {
      DecimalRoundTrip(n / 10);
      var s := Decimal(n);
      assert s[..|s| - 1] == Decimal(n / 10);
    }
  }

  /** `₱${price}`: the peso sign followed by the amount in decimal. */
  function PriceText(n: nat): (t: string)
    ensures |t| >= 2 && t[0] == '₱'
    ensures Denotes(t[1..], n)
    ensures |t| > 2 ==> t[1] != '0'
  {
    var t := "₱" + Decimal(n);
    DecimalRoundTrip(n);
    assert t[1..] == Decimal(n);
    t
  }

  /** The suggestion effect: the service field gets the suggested label and
      the price shows `₱<price>` when the price is truthy, else nothing. */
  function ApplySuggestion(st: PageState, s: Suggestion): (r: PageState)
    ensures r.form.service == DropdownOptions(Some(s))[0].value
    ensures forall g | g != Service :: Get(r.form, g) == Get(st.form, g)
    ensures r.price == "" <==> s.price.None? || s.price.value == 0
    ensures r.price != "" ==> s.price.Some? && r.price[0] == '₱' && Denotes(r.price[1..], s.price.value)
    ensures |r.price| > 2 ==> r.price[1] != '0'
  {
    var matched := OptionLabel(s.category, s.serviceType);
    var price := if s.price.Some? && s.price.value != 0 then PriceText(s.price.value) else "";
    PageState(Set(st.form, Service, matched), price)
  }

  /** After the pre-fill, the details lookup finds the suggested option. */
  lemma SuggestionIsSelected(st: PageState, s: Suggestion)
    ensures var options := DropdownOptions(Some(s));
            SelectedServiceInfo(options, ApplySuggestion(st, s).form.service) == Some(options[0])
  {
    var options := DropdownOptions(Some(s));
    assert |SeverityLabel(s.category)| > 0;
  }

  /** Without a suggestion, choosing the label of a pair selects the option
      for exactly that severity and type. */
  lemma LabelSelectsItsPair(c: Category, t: ServiceType)
    ensures var r := SelectedServiceInfo(DropdownOptions(None), OptionLabel(c, t));
            r.Some? && r.value.severity == c && r.value.kind == t
  {
    var options := DropdownOptions(None);
    EveryPairOffered(c, t);
    var r := SelectedServiceInfo(options, OptionLabel(c, t));
    assert |SeverityLabel(c)| > 0;
    var i :| 0 <= i < 9 && options[i].severity == c && options[i].kind == t;
    assert options[i].value == OptionLabel(c, t);
    OptionLabelInjective(r.value.severity, r.value.kind, c, t);
  }
}
