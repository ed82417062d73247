/**
 * The "hide shipping rates" delivery customization: for every delivery group
 * whose destination postcode starts with one of the configured prefixes
 * (ignoring ASCII letter case), hide the delivery options titled exactly like
 * the configured rate.
 */
module HideShippingRates {
  import opened Wrappers
  import opened Strings

  /** A selectable way of shipping a group: its display title (nullable) and its handle. */
  datatype DeliveryOption = DeliveryOption(title: Option<string>, handle: string)

  /** A part of the cart with its own destination postcode (`deliveryAddress?.zip`). */
  datatype DeliveryGroup = DeliveryGroup(zip: Option<string>, deliveryOptions: seq<DeliveryOption>)

  /** The merchant's settings as stored in the metafield: comma-separated postcode prefixes and a rate title. */
  datatype Configuration = Configuration(zipCodes: Option<string>, rate: Option<string>)

  datatype Input = Input(configuration: Configuration, deliveryGroups: seq<DeliveryGroup>)

  /** `{hide: {deliveryOptionHandle}}`. */
  datatype Operation = Hide(deliveryOptionHandle: string)

  datatype FunctionResult = FunctionResult(operations: seq<Operation>)

  const NoChanges := FunctionResult([])

  /** The separator of the `zipCodes` setting. */
  const ZipSeparator := ','

  /** A JavaScript string is truthy when it is present and not empty. */
  predicate Truthy(s: Option<string>) { s.Some? && s.value != "" }

  /** Both settings are present and non-empty; otherwise the function changes nothing. */
  predicate Active(config: Configuration) { Truthy(config.zipCodes) && Truthy(config.rate) }

  /**
   * A group qualifies when it has a non-empty postcode whose upper-cased form
   * starts with the upper-cased form of some entry of `zipCodes` split on
   * commas. Entries are not trimmed.
   */
  predicate Qualifies(group: DeliveryGroup, zipCodes: string) {
    Truthy(group.zip) &&
    exists prefix :: prefix in Split(zipCodes, ZipSeparator) && StartsWith(ToUpper(group.zip.value), ToUpper(prefix))
  }

  /**
   * The filter callback: `allowChange` starts unset and is set by every
   * prefix the upper-cased postcode starts with.
   */
  method GroupQualifies(group: DeliveryGroup, zipCodes: string) returns (allowChange: bool)
    ensures allowChange == Qualifies(group, zipCodes)
  {
    allowChange := false;
    if group.zip.Some? && group.zip.value != "" {
      var addressZip := ToUpper(group.zip.value);
      var prefixes := Split(zipCodes, ZipSeparator);
      for i := 0 to |prefixes|
        invariant allowChange <==> exists j :: 0 <= j < i && StartsWith(addressZip, ToUpper(prefixes[j]))
      {
        if StartsWith(addressZip, ToUpper(prefixes[i])) {
          allowChange := true;
        }
      }
    }
  }

  /** `deliveryGroups.filter(...)`: the qualifying groups, in their order. */
  function QualifyingGroups(groups: seq<DeliveryGroup>, zipCodes: string): seq<DeliveryGroup>
  {
    if groups == [] then []
    else
      var rest := QualifyingGroups(groups[1..], zipCodes);
      if Qualifies(groups[0], zipCodes) then [groups[0]] + rest else rest
  }

  /** The filter keeps exactly the qualifying groups, and never adds any. */
  lemma {:induction false} QualifyingGroupsMembers(groups: seq<DeliveryGroup>, zipCodes: string, g: DeliveryGroup)
    ensures |QualifyingGroups(groups, zipCodes)| <= |groups|
    ensures g in QualifyingGroups(groups, zipCodes) <==> g in groups && Qualifies(g, zipCodes)
  {
    if groups != [] {
      QualifyingGroupsMembers(groups[1..], zipCodes, g);
      assert g in groups <==> g == groups[0] || g in groups[1..];
    }
  }

  /** `group.deliveryOptions.filter(option => option.title == rate)`. */
  function TitledOptions(options: seq<DeliveryOption>, rate: string): (r: seq<DeliveryOption>)
    ensures |r| <= |options|
    ensures forall o :: o in r <==> o in options && o.title == Some(rate)
  {
    if options == [] then []
    else
      var rest := TitledOptions(options[1..], rate);
      assert forall o :: o in options <==> o == options[0] || o in options[1..];
      if options[0].title == Some(rate) then [options[0]] + rest else rest
  }

  /** `.flatMap(...)`: the options titled `rate` of every group, group after group. */
  function OptionsToHide(groups: seq<DeliveryGroup>, rate: string): seq<DeliveryOption>
  {
    if groups == [] then []
    else TitledOptions(groups[0].deliveryOptions, rate) + OptionsToHide(groups[1..], rate)
  }

  /** The flattened options are exactly the options titled `rate` of the given groups. */
  lemma {:induction false} OptionsToHideMembers(groups: seq<DeliveryGroup>, rate: string, o: DeliveryOption)
    ensures o in OptionsToHide(groups, rate) <==> o.title == Some(rate) && exists g :: g in groups && o in g.deliveryOptions
  {
    if groups != [] {
      OptionsToHideMembers(groups[1..], rate, o);
      assert forall g :: g in groups <==> g == groups[0] || g in groups[1..];
    }
  }

  /** `.map(...)`: one hide operation per option, carrying its handle, in order. */
  function HideAll(options: seq<DeliveryOption>): (r: seq<Operation>)
    ensures |r| == |options|
    ensures forall k :: 0 <= k < |r| ==> r[k] == Hide(options[k].handle)
  {
    if options == [] then [] else [Hide(options[0].handle)] + HideAll(options[1..])
  }

  /** The filter, flatMap and map pipeline on active settings. */
  function Operations(groups: seq<DeliveryGroup>, zipCodes: string, rate: string): seq<Operation>
  {
    HideAll(OptionsToHide(QualifyingGroups(groups, zipCodes), rate))
  }

  /**
   * The function's entry point. Without both settings it changes nothing.
   * With them, it hides exactly the options titled `rate` of the qualifying
   * groups, one operation per such option.
   */
  function Run(input: Input): (r: FunctionResult)
    ensures !Active(input.configuration) ==> r == NoChanges
    ensures Active(input.configuration) ==>
      var zipCodes, rate := input.configuration.zipCodes.value, input.configuration.rate.value;
      && |r.operations| == CountToHide(input.deliveryGroups, zipCodes, rate)
      && forall op :: op in r.operations <==> HidesMatchingOption(input.deliveryGroups, zipCodes, rate, op)
  {
    var config := input.configuration;
    if !Active(config) then NoChanges
    else
      var groups, zipCodes, rate := input.deliveryGroups, config.zipCodes.value, config.rate.value;
      OperationCount(groups, zipCodes, rate);
      OperationsExactly(groups, zipCodes, rate);
      FunctionResult(Operations(groups, zipCodes, rate))
  }

  /** A group without a postcode, or with an empty one, never qualifies. */
  lemma MissingZipNeverQualifies(group: DeliveryGroup, zipCodes: string)
    requires group.zip == None || group.zip == Some("")
    ensures !Qualifies(group, zipCodes)
  {
  }

  /** An empty entry among the prefixes (from ",," or a leading or trailing comma) matches every postcode. */
  lemma EmptyEntryMatchesEveryZip(group: DeliveryGroup, zipCodes: string)
    requires "" in Split(zipCodes, ZipSeparator)
    requires Truthy(group.zip)
    ensures Qualifies(group, zipCodes)
  {
    assert ToUpper("") == "";
    assert StartsWith(ToUpper(group.zip.value), ToUpper(""));
  }

  /** So a trailing comma in the setting makes every group with a postcode qualify. */
  lemma TrailingCommaMatchesEveryZip(group: DeliveryGroup, zipCodes: string)
    requires Truthy(group.zip)
    ensures Qualifies(group, zipCodes + [ZipSeparator])
  {
    SplitTrailingSeparator(zipCodes, ZipSeparator);
    assert Split(zipCodes + [ZipSeparator], ZipSeparator)[|Split(zipCodes, ZipSeparator)|] == "";
    EmptyEntryMatchesEveryZip(group, zipCodes + [ZipSeparator]);
  }

  /** Whether a group qualifies does not depend on the letter case of its postcode or of the setting. */
  lemma QualifiesIgnoresCase(zip1: string, zip2: string, zipCodes1: string, zipCodes2: string,
                             options1: seq<DeliveryOption>, options2: seq<DeliveryOption>)
    requires CaseVariant(zip1, zip2) && CaseVariant(zipCodes1, zipCodes2)
    ensures Qualifies(DeliveryGroup(Some(zip1), options1), zipCodes1) == Qualifies(DeliveryGroup(Some(zip2), options2), zipCodes2)
  {
    CaseVariantSameUpper(zip1, zip2);
    CaseVariantSameUpper(zipCodes1, zipCodes2);
    var parts1, parts2 := Split(zipCodes1, ZipSeparator), Split(zipCodes2, ZipSeparator);
    SplitSameUpper(zipCodes1, zipCodes2, ZipSeparator);
    var upper := ToUpper(zip1);
    if exists p :: p in parts1 && StartsWith(upper, ToUpper(p)) {
      SomePrefixMatches(upper, parts1, parts2);
    }
    if exists p :: p in parts2 && StartsWith(upper, ToUpper(p)) {
      SomePrefixMatches(upper, parts2, parts1);
    }
  }

  /** A prefix that matches has a counterpart at the same place in a list that agrees up to case. */
  lemma SomePrefixMatches(upper: string, parts1: seq<string>, parts2: seq<string>)
    requires |parts1| == |parts2|
    requires forall i :: 0 <= i < |parts1| ==> ToUpper(parts1[i]) == ToUpper(parts2[i])
    requires exists p :: p in parts1 && StartsWith(upper, ToUpper(p))
    ensures exists p :: p in parts2 && StartsWith(upper, ToUpper(p))
  {
    var p :| p in parts1 && StartsWith(upper, ToUpper(p));
    var i :| 0 <= i < |parts1| && parts1[i] == p;
    assert parts2[i] in parts2 && ToUpper(parts2[i]) == ToUpper(p);
  }

  /** What one group contributes on its own. */
  function GroupOperations(group: DeliveryGroup, zipCodes: string, rate: string): seq<Operation>
  {
    if Qualifies(group, zipCodes) then HideAll(TitledOptions(group.deliveryOptions, rate)) else []
  }

  /** The operations of a group come before those of the groups after it. */
  lemma OperationsCons(group: DeliveryGroup, rest: seq<DeliveryGroup>, zipCodes: string, rate: string)
    ensures Operations([group] + rest, zipCodes, rate) ==
      GroupOperations(group, zipCodes, rate) + Operations(rest, zipCodes, rate)
  {
    var groups := [group] + rest;
    assert groups[0] == group && groups[1..] == rest;
    var selected := QualifyingGroups(rest, zipCodes);
    if Qualifies(group, zipCodes) {
      assert ([group] + selected)[0] == group && ([group] + selected)[1..] == selected;
      HideAllAppend(TitledOptions(group.deliveryOptions, rate), OptionsToHide(selected, rate));
    }
  }

  lemma {:induction false} HideAllAppend(a: seq<DeliveryOption>, b: seq<DeliveryOption>)
    ensures HideAll(a + b) == HideAll(a) + HideAll(b)
  {
    if a != [] {
      assert (a + b)[1..] == a[1..] + b;
      HideAllAppend(a[1..], b);
    } else {
      assert a + b == b;
    }
  }

  lemma {:induction false} QualifyingGroupsAppend(a: seq<DeliveryGroup>, b: seq<DeliveryGroup>, zipCodes: string)
    ensures QualifyingGroups(a + b, zipCodes) == QualifyingGroups(a, zipCodes) + QualifyingGroups(b, zipCodes)
  {
    if a == [] {
      assert a + b == b;
    } else {
      assert (a + b)[0] == a[0] && (a + b)[1..] == a[1..] + b;
      QualifyingGroupsAppend(a[1..], b, zipCodes);
    }
  }

  lemma {:induction false} OptionsToHideAppend(a: seq<DeliveryGroup>, b: seq<DeliveryGroup>, rate: string)
    ensures OptionsToHide(a + b, rate) == OptionsToHide(a, rate) + OptionsToHide(b, rate)
  {
    if a == [] {
      assert a + b == b;
    } else {
      assert (a + b)[0] == a[0] && (a + b)[1..] == a[1..] + b;
      OptionsToHideAppend(a[1..], b, rate);
    }
  }

  /** Operations keep the group order: the groups' operations are simply concatenated. */
  lemma OperationsAppend(a: seq<DeliveryGroup>, b: seq<DeliveryGroup>, zipCodes: string, rate: string)
    ensures Operations(a + b, zipCodes, rate) == Operations(a, zipCodes, rate) + Operations(b, zipCodes, rate)
  {
    var qa, qb := QualifyingGroups(a, zipCodes), QualifyingGroups(b, zipCodes);
    QualifyingGroupsAppend(a, b, zipCodes);
    OptionsToHideAppend(qa, qb, rate);
    HideAllAppend(OptionsToHide(qa, rate), OptionsToHide(qb, rate));
  }

  /** Within a group, options keep their order: the title filter distributes over concatenation. */
  lemma {:induction false} TitledOptionsAppend(a: seq<DeliveryOption>, b: seq<DeliveryOption>, rate: string)
    ensures TitledOptions(a + b, rate) == TitledOptions(a, rate) + TitledOptions(b, rate)
  {
    if a == [] {
      assert a + b == b;
    } else {
      assert (a + b)[0] == a[0] && (a + b)[1..] == a[1..] + b;
      TitledOptionsAppend(a[1..], b, rate);
    }
  }

  /** A group that does not qualify contributes nothing, wherever it stands. */
  lemma NonQualifyingGroupContributesNothing(before: seq<DeliveryGroup>, group: DeliveryGroup, after: seq<DeliveryGroup>,
                                             zipCodes: string, rate: string)
    requires !Qualifies(group, zipCodes)
    ensures Operations(before + [group] + after, zipCodes, rate) == Operations(before + after, zipCodes, rate)
  {
    OperationsAppend(before, [group] + after, zipCodes, rate);
    OperationsCons(group, after, zipCodes, rate);
    OperationsAppend(before, after, zipCodes, rate);
    assert before + [group] + after == before + ([group] + after);
  }

  /** The number of options of `options` titled exactly `rate`. */
  function CountTitled(options: seq<DeliveryOption>, rate: string): nat
  {
    if options == [] then 0
    else (if options[0].title == Some(rate) then 1 else 0) + CountTitled(options[1..], rate)
  }

  /** The sum, over the qualifying groups, of their options titled `rate`. */
  function CountToHide(groups: seq<DeliveryGroup>, zipCodes: string, rate: string): nat
  {
    if groups == [] then 0
    else (if Qualifies(groups[0], zipCodes) then CountTitled(groups[0].deliveryOptions, rate) else 0)
         + CountToHide(groups[1..], zipCodes, rate)
  }

  lemma {:induction false} TitledOptionsCount(options: seq<DeliveryOption>, rate: string)
    ensures |TitledOptions(options, rate)| == CountTitled(options, rate)
  {
    if options != [] {
      TitledOptionsCount(options[1..], rate);
    }
  }

  /**
   * Exactly one operation per matching option of a qualifying group, however
   * many prefixes match that group.
   */
  lemma {:induction false} OperationCount(groups: seq<DeliveryGroup>, zipCodes: string, rate: string)
    ensures |Operations(groups, zipCodes, rate)| == CountToHide(groups, zipCodes, rate)
  {
    if groups != [] {
      assert groups == [groups[0]] + groups[1..];
      OperationsCons(groups[0], groups[1..], zipCodes, rate);
      TitledOptionsCount(groups[0].deliveryOptions, rate);
      OperationCount(groups[1..], zipCodes, rate);
    }
  }

  /** Every hidden handle is that of an option titled `rate` in a qualifying group. */
  lemma HiddenOptionsMatch(groups: seq<DeliveryGroup>, zipCodes: string, rate: string, op: Operation)
    requires op in Operations(groups, zipCodes, rate)
    ensures exists g, o :: g in groups && Qualifies(g, zipCodes) && o in g.deliveryOptions &&
                           o.title == Some(rate) && op == Hide(o.handle)
  {
    var options := OptionsToHide(QualifyingGroups(groups, zipCodes), rate);
    var k :| 0 <= k < |options| && HideAll(options)[k] == op;
    assert options[k] in options;
    OptionsToHideMembers(QualifyingGroups(groups, zipCodes), rate, options[k]);
    var g :| g in QualifyingGroups(groups, zipCodes) && options[k] in g.deliveryOptions;
    QualifyingGroupsMembers(groups, zipCodes, g);
  }

  /** And every option titled `rate` in a qualifying group is hidden. */
  lemma MatchingOptionsHidden(groups: seq<DeliveryGroup>, zipCodes: string, rate: string,
                              g: DeliveryGroup, o: DeliveryOption)
    requires g in groups && Qualifies(g, zipCodes) && o in g.deliveryOptions && o.title == Some(rate)
    ensures Hide(o.handle) in Operations(groups, zipCodes, rate)
  {
    var selected := QualifyingGroups(groups, zipCodes);
    var options := OptionsToHide(selected, rate);
    QualifyingGroupsMembers(groups, zipCodes, g);
    assert g in selected;
    OptionsToHideMembers(selected, rate, o);
    assert o in options;
    var k :| 0 <= k < |options| && options[k] == o;
    assert HideAll(options)[k] == Hide(o.handle);
  }

  /** `op` hides an option titled `rate` of some qualifying group. */
  predicate HidesMatchingOption(groups: seq<DeliveryGroup>, zipCodes: string, rate: string, op: Operation) {
    exists g, o :: g in groups && Qualifies(g, zipCodes) && o in g.deliveryOptions &&
                   o.title == Some(rate) && op == Hide(o.handle)
  }

  /** The operations are exactly the hides of options titled `rate` in qualifying groups. */
  lemma OperationsExactly(groups: seq<DeliveryGroup>, zipCodes: string, rate: string)
    ensures forall op :: op in Operations(groups, zipCodes, rate) <==> HidesMatchingOption(groups, zipCodes, rate, op)
  {
    forall op | op in Operations(groups, zipCodes, rate)
      ensures HidesMatchingOption(groups, zipCodes, rate, op)
    {
      HiddenOptionsMatch(groups, zipCodes, rate, op);
    }
    forall op | HidesMatchingOption(groups, zipCodes, rate, op)
      ensures op in Operations(groups, zipCodes, rate)
    {
      var g, o :| g in groups && Qualifies(g, zipCodes) && o in g.deliveryOptions &&
                  o.title == Some(rate) && op == Hide(o.handle);
      MatchingOptionsHidden(groups, zipCodes, rate, g, o);
    }
  }

  /** Two postcodes equal up to letter case, or both absent. */
  predicate ZipsAgreeUpToCase(a: Option<string>, b: Option<string>) {
    (a.None? && b.None?) || (a.Some? && b.Some? && CaseVariant(a.value, b.value))
  }

  /** Changing the letter case of postcodes and prefixes does not change the result. */
  lemma {:induction false} OperationsIgnoreCase(groups1: seq<DeliveryGroup>, groups2: seq<DeliveryGroup>,
                                                zipCodes1: string, zipCodes2: string, rate: string)
    requires CaseVariant(zipCodes1, zipCodes2)
    requires |groups1| == |groups2|
    requires forall i :: 0 <= i < |groups1| ==>
      groups1[i].deliveryOptions == groups2[i].deliveryOptions && ZipsAgreeUpToCase(groups1[i].zip, groups2[i].zip)
    ensures Operations(groups1, zipCodes1, rate) == Operations(groups2, zipCodes2, rate)
  {
    if groups1 != [] {
      var g1, g2 := groups1[0], groups2[0];
      if g1.zip.Some? {
        QualifiesIgnoresCase(g1.zip.value, g2.zip.value, zipCodes1, zipCodes2, g1.deliveryOptions, g2.deliveryOptions);
        assert g1 == DeliveryGroup(Some(g1.zip.value), g1.deliveryOptions);
        assert g2 == DeliveryGroup(Some(g2.zip.value), g2.deliveryOptions);
      }
      assert Qualifies(g1, zipCodes1) == Qualifies(g2, zipCodes2);
      assert groups1 == [g1] + groups1[1..] && groups2 == [g2] + groups2[1..];
      OperationsCons(g1, groups1[1..], zipCodes1, rate);
      OperationsCons(g2, groups2[1..], zipCodes2, rate);
      OperationsIgnoreCase(groups1[1..], groups2[1..], zipCodes1, zipCodes2, rate);
    }
  }

  lemma RunIgnoresCase(input1: Input, input2: Input)
    requires input1.configuration.rate == input2.configuration.rate
    requires ZipsAgreeUpToCase(input1.configuration.zipCodes, input2.configuration.zipCodes)
    requires |input1.deliveryGroups| == |input2.deliveryGroups|
    requires forall i :: 0 <= i < |input1.deliveryGroups| ==>
      input1.deliveryGroups[i].deliveryOptions == input2.deliveryGroups[i].deliveryOptions &&
      ZipsAgreeUpToCase(input1.deliveryGroups[i].zip, input2.deliveryGroups[i].zip)
    ensures Run(input1) == Run(input2)
  {
    var c1, c2 := input1.configuration, input2.configuration;
    if Active(c1) && Active(c2) {
      OperationsIgnoreCase(input1.deliveryGroups, input2.deliveryGroups, c1.zipCodes.value, c2.zipCodes.value, c1.rate.value);
    }
  }

  /** The setting "AB,CD" stands for the two prefixes "AB" and "CD". */
  lemma SplitExampleSetting()
    ensures Split("AB,CD", ZipSeparator) == ["AB", "CD"]
  {
    SplitJoin(["AB", "CD"], ZipSeparator);
    assert Join(["AB", "CD"], ZipSeparator) == "AB,CD";
  }

  /** A single group in the cart: its operations are those of the group alone. */
  lemma OperationsOfOneGroup(group: DeliveryGroup, zipCodes: string, rate: string)
    ensures Operations([group], zipCodes, rate) ==
      if Qualifies(group, zipCodes) then HideAll(TitledOptions(group.deliveryOptions, rate)) else []
  {
    OperationsCons(group, [], zipCodes, rate);
    assert [group] + [] == [group];
  }

  /** Settings {zipCodes: "AB,CD", rate: "Standard"} and a group shipping to "AB1 2CD": only "h1" is hidden. */
  lemma ExampleMatchingPostcode()
    ensures Run(Input(Configuration(Some("AB,CD"), Some("Standard")),
                      [DeliveryGroup(Some("AB1 2CD"), [DeliveryOption(Some("Standard"), "h1"), DeliveryOption(Some("Express"), "h2")])]))
            == FunctionResult([Hide("h1")])
  {
    var group := DeliveryGroup(Some("AB1 2CD"), [DeliveryOption(Some("Standard"), "h1"), DeliveryOption(Some("Express"), "h2")]);
    ExampleGroupQualifies(group);
    ExampleStandardOptions();
    OperationsOfOneGroup(group, "AB,CD", "Standard");
  }

  /** "AB1 2CD" starts with the entry "AB". */
  lemma ExampleGroupQualifies(group: DeliveryGroup)
    requires group.zip == Some("AB1 2CD")
    ensures Qualifies(group, "AB,CD")
  {
    SplitExampleSetting();
    ExampleUpperCase();
    assert "AB" in ["AB", "CD"];
  }

  /** The upper-cased texts the examples compare. */
  lemma ExampleUpperCase()
    ensures ToUpper("AB") == "AB"
    ensures StartsWith(ToUpper("AB1 2CD"), "AB")
    ensures ToUpper("ZZ9 1AA")[0] == 'Z' && ToUpper("CD")[0] == 'C'
  {
    var zip := ToUpper("AB1 2CD");
    assert zip[0] == 'A' && zip[1] == 'B';
    assert zip[..2] == "AB";
    var prefix := ToUpper("AB");
    assert prefix[0] == 'A' && prefix[1] == 'B';
  }

  /** Of the options Standard/h1 and Express/h2, only h1 is titled "Standard". */
  lemma ExampleStandardOptions()
    ensures HideAll(TitledOptions([DeliveryOption(Some("Standard"), "h1"), DeliveryOption(Some("Express"), "h2")], "Standard"))
            == [Hide("h1")]
  {
    var options := [DeliveryOption(Some("Standard"), "h1"), DeliveryOption(Some("Express"), "h2")];
    assert options[1..] == [DeliveryOption(Some("Express"), "h2")];
    assert TitledOptions(options, "Standard") == [DeliveryOption(Some("Standard"), "h1")];
  }

  /** The same settings and a group shipping to "ZZ9 1AA": nothing is hidden. */
  lemma ExampleOtherPostcode()
    ensures Run(Input(Configuration(Some("AB,CD"), Some("Standard")),
                      [DeliveryGroup(Some("ZZ9 1AA"), [DeliveryOption(Some("Standard"), "h1"), DeliveryOption(Some("Express"), "h2")])]))
            == FunctionResult([])
  {
    var group := DeliveryGroup(Some("ZZ9 1AA"), [DeliveryOption(Some("Standard"), "h1"), DeliveryOption(Some("Express"), "h2")]);
    ExampleOtherGroupExcluded(group);
    OperationsOfOneGroup(group, "AB,CD", "Standard");
  }

  /** "ZZ9 1AA" starts with neither "AB" nor "CD". */
  lemma ExampleOtherGroupExcluded(group: DeliveryGroup)
    requires group.zip == Some("ZZ9 1AA")
    ensures !Qualifies(group, "AB,CD")
  {
    SplitExampleSetting();
    ExampleUpperCase();
    var upper := ToUpper("ZZ9 1AA");
    assert !StartsWith(upper, ToUpper("AB")) && !StartsWith(upper, ToUpper("CD"));
  }
}
