/** The option parsing of send_ebay_offers (ebaybot.py, lines 66-81):
    every argument after the keyword is dispatched on its prefix, and a
    later argument overrides an earlier one. */
module Arguments {
  import opened Text
  import opened Query

  const MinPrefix := "min:"
  const MaxPrefix := "max:"
  const ConditionPrefix := "condition:"
  const TypePrefix := "type:"

  /** `arg.split(prefix)[1]` for an argument that starts with prefix. */
  function OptionValue(arg: string, prefix: string): string
    requires prefix != [] && StartsWith(arg, prefix)
  {
    assert OccursAt(arg, prefix, 0);
    Split(arg, prefix)[1]
  }

  /** The value is the text after the prefix, cut off at the first
      occurrence of the prefix in that text, or all of it when there is
      none; the value itself holds no occurrence. */
  lemma OptionValueCut(arg: string, prefix: string)
    requires prefix != [] && StartsWith(arg, prefix)
    ensures var rest := arg[|prefix|..]; var v := OptionValue(arg, prefix);
      && StartsWith(rest, v)
      && Find(v, prefix, 0).None?
      && Find(rest, prefix, 0) == (if |v| < |rest| then Some(|v|) else None)
  {
    assert OccursAt(arg, prefix, 0);
    var rest := arg[|prefix|..];
    assert Split(arg, prefix) == [arg[..0]] + Split(rest, prefix);
    match Find(rest, prefix, 0)
    case None =>
    case Some(k) =>
      FindFirstIsFirst(rest, prefix, k);
      assert rest[k..][..|prefix|] == rest[k..k + |prefix|];
  }

  /** The value the last argument starting with prefix gives, if any. */
  function LastSetting(options: seq<string>, prefix: string): Option<string>
    requires prefix != []
  {
    if options == [] then None
    else
      var last := options[|options| - 1];
      if StartsWith(last, prefix) then Some(OptionValue(last, prefix))
      else LastSetting(options[..|options| - 1], prefix)
  }

  /** The filters that the arguments after the keyword produce. */
  function ParsedFilters(options: seq<string>): Filters {
    Filters(
      LastSetting(options, MinPrefix),
      LastSetting(options, MaxPrefix),
      LastSetting(options, ConditionPrefix),
      LastSetting(options, TypePrefix))
  }

  /** No argument starts with two of the four prefixes, so the order of
      the elif chain does not matter. */
  lemma PrefixesExclusive(arg: string)
    ensures StartsWith(arg, MinPrefix) ==> !StartsWith(arg, MaxPrefix) && !StartsWith(arg, ConditionPrefix) && !StartsWith(arg, TypePrefix)
    ensures StartsWith(arg, MaxPrefix) ==> !StartsWith(arg, ConditionPrefix) && !StartsWith(arg, TypePrefix)
    ensures StartsWith(arg, ConditionPrefix) ==> !StartsWith(arg, TypePrefix)
  {
    if StartsWith(arg, MinPrefix) { assert arg[1] == MinPrefix[1]; }
    if StartsWith(arg, MaxPrefix) { assert arg[0] == MaxPrefix[0]; }
    if StartsWith(arg, ConditionPrefix) { assert arg[0] == ConditionPrefix[0]; }
  }

  /** The loop over args[1:] that reassigns the four filter variables. */
  method ParseFilters(options: seq<string>) returns (f: Filters)
    ensures f == ParsedFilters(options)
  {
    var minPrice: Option<string> := None;
    var maxPrice: Option<string> := None;
    var condition: Option<string> := None;
    var listingType: Option<string> := None;
    for i := 0 to |options|
      invariant Filters(minPrice, maxPrice, condition, listingType) == ParsedFilters(options[..i])
    {
      var arg := options[i];
      assert options[..i + 1][..i] == options[..i];
      PrefixesExclusive(arg);
      if StartsWith(arg, MinPrefix) {
        minPrice := Some(OptionValue(arg, MinPrefix));
      } else if StartsWith(arg, MaxPrefix) {
        maxPrice := Some(OptionValue(arg, MaxPrefix));
      } else if StartsWith(arg, ConditionPrefix) {
        condition := Some(OptionValue(arg, ConditionPrefix));
      } else if StartsWith(arg, TypePrefix) {
        listingType := Some(OptionValue(arg, TypePrefix));
      }
    }
    assert options[..|options|] == options;
    f := Filters(minPrice, maxPrice, condition, listingType);
  }

  /** options[i] is the last argument that starts with prefix. */
  predicate IsLastWith(options: seq<string>, prefix: string, i: int) {
    && 0 <= i < |options|
    && StartsWith(options[i], prefix)
    && forall j :: i < j < |options| ==> !StartsWith(options[j], prefix)
  }

  /** A filter is unset exactly when no argument carries its prefix, and
      otherwise the last such argument decides its value. */
  lemma {:induction false} LastSettingWins(options: seq<string>, prefix: string)
    requires prefix != []
    ensures LastSetting(options, prefix).None? <==>
      forall i :: 0 <= i < |options| ==> !StartsWith(options[i], prefix)
    ensures forall i :: IsLastWith(options, prefix, i) ==>
      LastSetting(options, prefix) == Some(OptionValue(options[i], prefix))
    decreases |options|
  {
    if options != [] {
      var init := options[..|options| - 1];
      LastSettingWins(init, prefix);
      var last := options[|options| - 1];
      forall i | IsLastWith(options, prefix, i)
        ensures LastSetting(options, prefix) == Some(OptionValue(options[i], prefix))
      {
        if i < |init| {
          assert !StartsWith(last, prefix);
          assert init[i] == options[i];
          assert IsLastWith(init, prefix, i);
        }
      }
      if LastSetting(options, prefix).None? {
        forall i | 0 <= i < |options| ensures !StartsWith(options[i], prefix) {
          if i < |init| { assert init[i] == options[i]; }
        }
      }
    }
  }

  /** An argument with none of the four prefixes changes nothing. */
  lemma UnrecognisedIgnored(options: seq<string>, arg: string)
    requires !StartsWith(arg, MinPrefix) && !StartsWith(arg, MaxPrefix)
    requires !StartsWith(arg, ConditionPrefix) && !StartsWith(arg, TypePrefix)
    ensures ParsedFilters(options + [arg]) == ParsedFilters(options)
  {
    assert (options + [arg])[..|options|] == options;
  }
}
