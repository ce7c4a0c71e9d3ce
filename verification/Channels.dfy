/** Removal channels and the choice among them. */
module Channels {
  import opened Wrappers
  import opened Text

  datatype Channel =
    | OfficialSelfService | OfficialPrivacyContact | AuthorizedAgent | GovernmentChannel
    | SearchEngineRemoval | CertifiedMail | AppealOrRegulator | NotRemovableOutcome

  /** 1 is the highest priority. */
  function PriorityOf(c: Channel): nat {
    match c
    case OfficialSelfService => 1
    case OfficialPrivacyContact => 2
    case AuthorizedAgent => 3
    case GovernmentChannel => 4
    case SearchEngineRemoval => 5
    case CertifiedMail => 6
    case AppealOrRegulator => 7
    case NotRemovableOutcome => 8
  }

  datatype UnavailableKind = Unavailable | Unlawful | Gated

  datatype ChannelOption = ChannelOption(
    channel: Channel, unavailableKind: Option<UnavailableKind>, unavailableReason: Option<string>)

  predicate Blank(s: string) { forall c :: c in s ==> IsSpace(c) }

  /** An unavailable option must carry a recorded reason. */
  predicate WellFormed(o: ChannelOption) {
    o.unavailableKind.Some? ==> o.unavailableReason.Some? && !Blank(o.unavailableReason.value)
  }

  function AvailableOnly(options: seq<ChannelOption>): (r: seq<ChannelOption>)
    ensures forall o :: o in r <==> o in options && o.unavailableKind.None?
  {
    if options == [] then []
    else (if options[0].unavailableKind.None? then [options[0]] else []) + AvailableOnly(options[1..])
  }

  predicate SortedByPriority(s: seq<ChannelOption>) {
    forall i, j :: 0 <= i < j < |s| ==> PriorityOf(s[i].channel) <= PriorityOf(s[j].channel)
  }

  function InsertByPriority(o: ChannelOption, s: seq<ChannelOption>): (r: seq<ChannelOption>)
    requires SortedByPriority(s)
    ensures SortedByPriority(r) && forall x :: x in r <==> x == o || x in s
  {
    if s == [] || PriorityOf(o.channel) <= PriorityOf(s[0].channel) then [o] + s
    else
      var rest := InsertByPriority(o, s[1..]);
      assert forall j :: 0 <= j < |rest| ==> rest[j] in rest && (rest[j] == o || rest[j] in s[1..]);
      [s[0]] + rest
  }

  /** A stable sort by priority. */
  function SortByPriority(s: seq<ChannelOption>): (r: seq<ChannelOption>)
    ensures SortedByPriority(r) && forall x :: x in r <==> x in s
  {
    if s == [] then [] else InsertByPriority(s[0], SortByPriority(s[1..]))
  }

  /** The highest-priority lawful option; None stands for the refusal the original throws. */
  function SelectChannel(options: seq<ChannelOption>): Option<ChannelOption> {
    if options == [] || exists i :: 0 <= i < |options| && !WellFormed(options[i]) then None
    else
      var sorted := SortByPriority(AvailableOnly(options));
      if sorted == [] then None else Some(sorted[0])
  }

  function RejectedChannels(options: seq<ChannelOption>, selected: ChannelOption): (r: seq<ChannelOption>)
    ensures forall o :: o in r <==> o in options && PriorityOf(o.channel) < PriorityOf(selected.channel)
  {
    if options == [] then []
    else
      (if PriorityOf(options[0].channel) < PriorityOf(selected.channel) then [options[0]] else [])
      + RejectedChannels(options[1..], selected)
  }

  /** A choice is one of the available options, none of which has a higher priority; so every rejected
    * channel is recorded as unavailable with a reason.  No choice is made exactly when an option is
    * malformed or nothing is available. */
  lemma SelectionIsJustified(options: seq<ChannelOption>)
    ensures SelectChannel(options).None? <==>
            (exists o :: o in options && !WellFormed(o)) || (forall o :: o in options ==> o.unavailableKind.Some?)
    ensures SelectChannel(options).Some? ==>
              var chosen := SelectChannel(options).value;
              && chosen in options && chosen.unavailableKind.None?
              && (forall o :: o in options && o.unavailableKind.None? ==> PriorityOf(chosen.channel) <= PriorityOf(o.channel))
              && (forall o :: o in RejectedChannels(options, chosen) ==> o.unavailableKind.Some? && WellFormed(o))
  {
    var available := AvailableOnly(options);
    var sorted := SortByPriority(available);
    if sorted != [] {
      assert sorted[0] in sorted;
    }
    forall o | o in options && o.unavailableKind.None?
      ensures o in sorted
    {
      assert o in available;
    }
    if SelectChannel(options).None? && options != [] && sorted != [] {
      var i :| 0 <= i < |options| && !WellFormed(options[i]);
      assert options[i] in options;
    }
  }
}
