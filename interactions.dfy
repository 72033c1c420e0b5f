/**
 * Parameter lookup on the four interaction records.
 *
 * The generic interaction looks the name up among the options the user
 * filled in; the button, autocomplete and select records override the lookup
 * so that it always answers with the empty value.
 */
module Interactions {
  import opened Optional
  import opened Events

  /** Option `i` is called `name` and no option before it is. */
  predicate IsFirstNamed(options: seq<CommandDataOption>, name: string, i: int) {
    0 <= i < |options| && options[i].name == name &&
    forall j :: 0 <= j < i ==> options[j].name != name
  }

  /** Position of the first option called `name`, if any. */
  function FirstNamed(options: seq<CommandDataOption>, name: string): (r: Option<nat>)
    ensures r.None? <==> forall i :: 0 <= i < |options| ==> options[i].name != name
    ensures r.Some? ==> IsFirstNamed(options, name, r.value)
  {
    if options == [] then None
    else if options[0].name == name then Some(0)
    else match FirstNamed(options[1..], name)
      case None => None
      case Some(i) => Some(i + 1)
  }

  /** The value of the parameter called `name`, or the empty value. */
  function GetParameter(ev: InteractionEvent, name: string): (r: CommandValue)
    ensures !ev.variant.Generic? ==> r == Empty
    ensures (forall i :: 0 <= i < |ev.command.options| ==> ev.command.options[i].name != name) ==> r == Empty
    ensures ev.variant.Generic? ==>
      forall i :: IsFirstNamed(ev.command.options, name, i) ==> r == ev.command.options[i].value
  {
    match ev.variant
    case Generic =>
      (match FirstNamed(ev.command.options, name)
       case None => Empty
       case Some(i) => ev.command.options[i].value)
    case Button(_, _) => Empty
    case AutocompleteRequest(_, _, _) => Empty
    case Select(_, _, _) => Empty
  }

  /**
   * A name that is not among the command's parameters yields the empty value
   * on every variant (a corollary of GetParameter's contract, stated on its own).
   */
  lemma AbsentParameterIsEmpty(ev: InteractionEvent, name: string)
    requires forall i :: 0 <= i < |ev.command.options| ==> ev.command.options[i].name != name
    ensures GetParameter(ev, name) == Empty
  {
  }

  /** On the generic record, a name that is present yields the value of its first occurrence. */
  lemma PresentParameterIsFirstMatch(ev: InteractionEvent, name: string, i: nat)
    requires ev.variant.Generic?
    requires i < |ev.command.options| && ev.command.options[i].name == name
    ensures exists k :: 0 <= k <= i && IsFirstNamed(ev.command.options, name, k) &&
                        GetParameter(ev, name) == ev.command.options[k].value
  {
    var k := FirstNamed(ev.command.options, name).value;
    assert ev.command.options[k].name == name;
  }

  /**
   * The autocomplete record answers with the empty value even for the name of
   * an option it lists, and even when the command it derives from has a
   * parameter of that name.
   */
  lemma AutocompleteIgnoresItsOptions(ev: InteractionEvent, i: nat)
    requires ev.variant.AutocompleteRequest? && i < |ev.variant.autocompleteOptions|
    ensures GetParameter(ev, ev.variant.autocompleteOptions[i].name) == Empty
  {
  }

  /**
   * The same command seen as a generic interaction and as a button, select or
   * autocomplete record: only the generic one finds the parameter.
   */
  lemma OnlyGenericFindsParameters(cmd: CommandInteraction, v: InteractionVariant, i: nat)
    requires !v.Generic?
    requires i < |cmd.options| && cmd.options[i].value != Empty
    requires forall j :: 0 <= j < |cmd.options| && j != i ==> cmd.options[j].name != cmd.options[i].name
    ensures GetParameter(InteractionEvent(cmd, Generic), cmd.options[i].name) == cmd.options[i].value
    ensures GetParameter(InteractionEvent(cmd, v), cmd.options[i].name) == Empty
  {
    PresentParameterIsFirstMatch(InteractionEvent(cmd, Generic), cmd.options[i].name, i);
  }
}
