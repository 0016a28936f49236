/**
 * The `statusmod` command: an administrator lists the status messages
 * posted in a channel, shows one's options, resets one option or sets one.
 *
 * The decision is a pure function of the message text and the number of
 * statuses cached for the channel (`Dispatch`); `Render` turns the decision
 * into the one reply; `Call` is the handler itself, which normalises the
 * cache entry, passes the option change to the addressed status and sends
 * the reply on the channel.
 */
module StatusMod {
  import opened Wrappers
  import opened Text
  import opened EcmaParseInt

  /**
   * What the update cache holds for a channel: nothing, a single status
   * (an entry of inconsistent shape), or a list of statuses.
   */
  datatype CacheEntry<T> = Absent | Single(status: T) | Many(statuses: seq<T>)

  /** The option change handed to a status: `deleteOption` or `setOption`. */
  datatype OptionCall = DeleteCall(option: string) | SetCall(option: string, value: string)

  /** The one outcome an invocation selects. */
  datatype Action =
    | List(count: nat)                                   // no arguments
    | Show(index: nat)                                   // an index only
    | Reset(index: nat, option: string)                  // an index and an option
    | Set(index: nat, option: string, value: string)     // an index, an option and a value
    | NoStatuses                                         // no usable index, empty channel
    | InvalidIndex(count: nat)                           // no usable index, `count` statuses

  /** The status list of a cache entry: absent is empty, a single status a one-element list. */
  function Normalise<T>(entry: CacheEntry<T>): (statuses: seq<T>)
    ensures entry.Absent? ==> statuses == []
    ensures entry.Single? ==> statuses == [entry.status]
    ensures entry.Many? ==> statuses == entry.statuses
  {
    match entry
    case Absent => []
    case Single(s) => [s]
    case Many(l) => l
  }

  /** The arguments: the pieces of the message after the command word. */
  function Args(content: string): (args: seq<string>)
    ensures |args| == |Split(content)| - 1
    ensures SpaceFree(args)
    ensures Join([Split(content)[0]] + args) == content
  {
    var pieces := Split(content);
    JoinSplit(content);
    assert [pieces[0]] + pieces[1..] == pieces;
    pieces[1..]
  }

  /** `arg.replace(/^#/, '')`: one leading '#' is removed. */
  function StripHash(arg: string): (r: string)
    ensures r == arg || (|arg| > 0 && arg[0] == '#' && r == arg[1..])
    ensures |arg| > 0 && arg[0] == '#' ==> r == arg[1..]
  {
    if |arg| > 0 && arg[0] == '#' then arg[1..] else arg
  }

  /**
   * The status addressed by the first argument among `n`: its `parseInt`
   * after one '#' is stripped, when that is a number from 0 to n - 1.
   */
  function StatusIndex(arg: string, n: nat): (r: Option<nat>)
    ensures r.Some? <==> (ParseInt(StripHash(arg)).Int? && 0 <= ParseInt(StripHash(arg)).value < n)
    ensures r.Some? ==> r.value < n && ParseInt(StripHash(arg)) == Int(r.value)
  {
    match ParseInt(StripHash(arg))
    case NaN => None
    case Int(i) => if i < n && i >= 0 then Some(i) else None
  }

  /** The decision over the argument list and the number of statuses. */
  function DispatchArgs(args: seq<string>, n: nat): (a: Action)
    ensures Addresses(a, n)
    ensures a.List? <==> |args| == 0
    ensures (a.NoStatuses? || a.InvalidIndex?) <==> |args| > 0 && StatusIndex(args[0], n).None?
    ensures (a.Show? || a.Reset? || a.Set?) ==> |args| > 0 && StatusIndex(args[0], n) == Some(a.index)
  {
    if |args| == 0 then List(n)
    else
      match StatusIndex(args[0], n)
      case Some(i) => Addressed(i, args)
      case None => if n == 0 then NoStatuses else InvalidIndex(n)
  }

  /** The branch for a usable index `i`, chosen by the number of arguments. */
  function Addressed(i: nat, args: seq<string>): (a: Action)
    requires |args| > 0
    ensures (a.Show? || a.Reset? || a.Set?) && a.index == i
    ensures a.Show? <==> |args| == 1
    ensures a.Reset? <==> |args| == 2
    ensures a.Set? <==> |args| >= 3
    ensures !a.Show? ==> a.option == args[1]
  {
    if |args| == 1 then Show(i)
    else if |args| == 2 then Reset(i, args[1])
    else Set(i, args[1], Join(args[2..]))
  }

  /** True when every status index in the action is below `n`. */
  predicate Addresses(a: Action, n: nat)
  {
    match a
    case Show(i) => i < n
    case Reset(i, _) => i < n
    case Set(i, _, _) => i < n
    case List(c) => c == n
    case NoStatuses => n == 0
    case InvalidIndex(c) => c == n && n > 0
  }

  /** The outcome of the message `content` in a channel with `n` statuses. */
  function Dispatch(content: string, n: nat): (a: Action)
    ensures Addresses(a, n)
    ensures a.List? <==> |Args(content)| == 0
    ensures (a.NoStatuses? || a.InvalidIndex?) <==>
              (|Args(content)| > 0 && StatusIndex(Args(content)[0], n).None?)
  {
    DispatchArgs(Args(content), n)
  }

  /** The option change an action passes to the status it addresses, if any. */
  function Mutation(a: Action): (m: Option<(nat, OptionCall)>)
    ensures m.Some? <==> a.Reset? || a.Set?
    ensures m.Some? ==> m.value.0 == a.index && m.value.1.option == a.option
    ensures m.Some? ==> (m.value.1.SetCall? <==> a.Set?)
    ensures a.Set? ==> m.value.1.value == a.value
  {
    match a
    case Reset(i, opt) => Some((i, DeleteCall(opt)))
    case Set(i, opt, value) => Some((i, SetCall(opt, value)))
    case _ => None
  }

  /** One field of the channel listing: its label and the status it identifies. */
  datatype Field<T> = Field(name: string, status: T)

  /**
   * The reply. Where the source renders `statusIdentity(status)` the reply
   * carries the status itself; option values read back from a status are
   * not part of the model.
   */
  datatype Reply<T> =
    | StatusList(title: string, fields: seq<Field<T>>)
    | StatusOptions(title: string, status: T)
    | OptionReset(title: string, status: T, option: string)
    | OptionSet(title: string, status: T, option: string)
    | Plain(text: string)

  const NoStatusesText: string := "There are no status messages in this channel"

  const InvalidIndexLead: string := "Please enter a valid status ID (between 0 and "

  /** The reply naming the valid range; its number sits between the lead and the closing parenthesis. */
  function InvalidIndexText(n: nat): (r: string)
    requires n > 0
    ensures |r| > |InvalidIndexLead| && r[..|InvalidIndexLead|] == InvalidIndexLead && r[|r| - 1] == ')'
    ensures r[|InvalidIndexLead|..|r| - 1] == DecimalString(n - 1)
  {
    InvalidIndexLead + DecimalString(n - 1) + ")"
  }

  /** The label `#k` of the status at position `k`. */
  function Label(k: nat): (r: string)
    ensures |r| >= 2 && r[0] == '#' && Space !in r
    ensures StripHash(r) == DecimalString(k)
  {
    "#" + DecimalString(k)
  }

  /** `statuses.map((status, i) => ...)`: one field per status, in cache order. */
  function Listing<T>(statuses: seq<T>): (fields: seq<Field<T>>)
    ensures |fields| == |statuses|
    ensures forall k :: 0 <= k < |fields| ==> fields[k] == Field(Label(k), statuses[k])
  {
    seq(|statuses|, k requires 0 <= k < |statuses| => Field(Label(k), statuses[k]))
  }

  /** The reply sent for an action over the channel's statuses. */
  function Render<T>(a: Action, statuses: seq<T>): (r: Reply<T>)
    requires Addresses(a, |statuses|)
    ensures r.StatusList? <==> a.List?
    ensures r.StatusOptions? <==> a.Show?
    ensures r.OptionReset? <==> a.Reset?
    ensures r.OptionSet? <==> a.Set?
    ensures r.Plain? <==> a.NoStatuses? || a.InvalidIndex?
    ensures (a.Show? || a.Reset? || a.Set?) ==> r.title == Label(a.index) && r.status == statuses[a.index]
    ensures (a.Reset? || a.Set?) ==> r.option == a.option
    ensures a.List? ==> r.fields == Listing(statuses) && r.title == DecimalString(|statuses|) + " Active statuses"
  {
    match a
    case List(_) =>
      var fields := Listing(statuses);
      StatusList(DecimalString(|fields|) + " Active statuses", fields)
    case Show(i) => StatusOptions(Label(i), statuses[i])
    case Reset(i, opt) => OptionReset(Label(i), statuses[i], opt)
    case Set(i, opt, _) => OptionSet(Label(i), statuses[i], opt)
    case NoStatuses => Plain(NoStatusesText)
    case InvalidIndex(n) => Plain(InvalidIndexText(n))
  }

  /** Joining a command word and space-free arguments, then taking the arguments, gives them back. */
  lemma ArgsOfCommandLine(word: string, args: seq<string>)
    requires SpaceFree([word] + args)
    ensures Args(Join([word] + args)) == args
  {
    SplitJoin([word] + args);
    assert ([word] + args)[1..] == args;
  }

  /**
   * In the set branch the value is the message text after its third
   * space, verbatim (doubled spaces included), the option is the second
   * argument and the index that of the first.
   */
  lemma SetValueIsRestOfLine(content: string, n: nat)
    requires Dispatch(content, n).Set?
    ensures |Args(content)| >= 3
    ensures Dispatch(content, n).index == StatusIndex(Args(content)[0], n).value
    ensures Dispatch(content, n).option == Args(content)[1]
    ensures Dispatch(content, n).value == AfterSeparators(content, 3)
  {
    var pieces := Split(content);
    assert Args(content)[2..] == pieces[3..];
    JoinDrop(content, 3);
  }

  /** With a usable index exactly one branch runs, chosen by the argument count. */
  lemma BranchByArgumentCount(content: string, n: nat)
    requires |Args(content)| > 0 && StatusIndex(Args(content)[0], n).Some?
    ensures var args, i := Args(content), StatusIndex(Args(content)[0], n).value;
      Dispatch(content, n) ==
        if |args| == 1 then Show(i)
        else if |args| == 2 then Reset(i, args[1])
        else Set(i, args[1], Join(args[2..]))
  {
  }

  /** A '#' in front of the index is optional: "#1" and "1" address the same status. */
  lemma HashIsOptional(arg: string, n: nat)
    requires |arg| == 0 || arg[0] != '#'
    ensures StatusIndex("#" + arg, n) == StatusIndex(arg, n)
  {
    assert ("#" + arg)[1..] == arg;
  }

  /**
   * The indices accepted in decimal are exactly 0 to n - 1, the range the
   * "valid status ID" reply names, with or without the '#'.
   */
  lemma DecimalIndexAccepted(k: nat, n: nat)
    ensures StatusIndex(DecimalString(k), n) == (if k < n then Some(k) else None)
    ensures StatusIndex(Label(k), n) == StatusIndex(DecimalString(k), n)
  {
    DecimalRoundTrip(k, "");
    assert DecimalString(k) + "" == DecimalString(k);
    HashIsOptional(DecimalString(k), n);
  }

  /**
   * The label of the k-th field of the listing, sent back as the only
   * argument, shows the k-th status.
   */
  lemma ListingLabelShowsStatus<T>(word: string, statuses: seq<T>, k: nat)
    requires Space !in word && k < |statuses|
    ensures Dispatch(word + " " + Listing(statuses)[k].name, |statuses|) == Show(k)
    ensures Render(Show(k), statuses) == StatusOptions(Label(k), statuses[k])
  {
    var lbl := Label(k);
    assert Space !in lbl by {
      assert lbl == "#" + DecimalString(k);
    }
    ArgsOfCommandLine(word, [lbl]);
    assert Join([word] + [lbl]) == word + " " + lbl by {
      assert ([word] + [lbl])[1..] == [lbl];
    }
    DecimalIndexAccepted(k, |statuses|);
  }

  /**
   * The show, reset and set replies carry the addressed status under the
   * title `#i`, and that title, sent back as the index, addresses it again.
   */
  lemma ReplyTitleAddressesStatus<T>(content: string, statuses: seq<T>)
    requires Dispatch(content, |statuses|).Show? || Dispatch(content, |statuses|).Reset? ||
             Dispatch(content, |statuses|).Set?
    ensures var i, r := Dispatch(content, |statuses|).index, Render(Dispatch(content, |statuses|), statuses);
      (r.StatusOptions? || r.OptionReset? || r.OptionSet?) &&
      r.title == Label(i) && r.status == statuses[i] &&
      StatusIndex(r.title, |statuses|) == Some(i)
  {
    var i := Dispatch(content, |statuses|).index;
    DecimalIndexAccepted(i, |statuses|);
  }

  /** With no arguments the reply lists every status, in cache order, under its label. */
  lemma ListReply<T>(content: string, statuses: seq<T>)
    requires |Args(content)| == 0
    ensures var r := Render(Dispatch(content, |statuses|), statuses);
      r.StatusList? && |r.fields| == |statuses| &&
      r.title == DecimalString(|statuses|) + " Active statuses" &&
      forall k :: 0 <= k < |r.fields| ==> r.fields[k].name == Label(k) && r.fields[k].status == statuses[k]
  {
  }

  /**
   * Without a usable index the reply is "no status messages" in an empty
   * channel, and otherwise names the range 0 to n - 1.
   */
  lemma UnusableIndexReply<T>(content: string, statuses: seq<T>)
    requires |Args(content)| > 0 && StatusIndex(Args(content)[0], |statuses|).None?
    ensures Render(Dispatch(content, |statuses|), statuses) ==
      if |statuses| == 0 then Plain(NoStatusesText) else Plain(InvalidIndexText(|statuses|))
  {
  }

  /**
   * An option change happens exactly when an index is usable and an option
   * is named, and it goes to the addressed status with the named option.
   */
  lemma OnlyAddressedStatusChanges(content: string, n: nat)
    ensures var args := Args(content);
      Mutation(Dispatch(content, n)).Some? <==> |args| >= 2 && StatusIndex(args[0], n).Some?
    ensures var args := Args(content);
      Mutation(Dispatch(content, n)).Some? ==>
        Mutation(Dispatch(content, n)).value.0 == StatusIndex(args[0], n).value < n &&
        Mutation(Dispatch(content, n)).value.1.option == args[1]
  {
  }

  /**
   * A command line assembled from a command word, an index in decimal, an
   * option name and the words of a value sets that option on that status
   * to those words joined by single spaces; empty words stand for doubled
   * spaces and are kept.
   */
  lemma SetCommandRoundTrip(word: string, k: nat, option: string, words: seq<string>, n: nat)
    requires k < n && |words| >= 1
    requires Space !in word && Space !in option && SpaceFree(words)
    ensures Dispatch(Join([word, DecimalString(k), option] + words), n) == Set(k, option, Join(words))
  {
    var args := [DecimalString(k), option] + words;
    assert [word] + args == [word, DecimalString(k), option] + words;
    assert SpaceFree([word] + args) by {
      forall j | 0 <= j < |[word] + args| ensures Space !in ([word] + args)[j] {
        if j >= 3 {
          assert ([word] + args)[j] == words[j - 3];
        }
      }
    }
    ArgsOfCommandLine(word, args);
    DecimalIndexAccepted(k, n);
    assert args[2..] == words;
  }

  /** A command line built from an index in decimal and an option name resets that option on that status. */
  lemma ResetCommandRoundTrip(word: string, k: nat, option: string, n: nat)
    requires k < n && Space !in word && Space !in option
    ensures Dispatch(Join([word, DecimalString(k), option]), n) == Reset(k, option)
  {
    var args := [DecimalString(k), option];
    assert [word] + args == [word, DecimalString(k), option];
    ArgsOfCommandLine(word, args);
    DecimalIndexAccepted(k, n);
  }

  /** A negative index, with or without '#', is never usable. */
  lemma NegativeIndexRejected(k: nat, n: nat)
    requires k >= 1
    ensures StatusIndex("-" + DecimalString(k), n).None?
    ensures StatusIndex("#-" + DecimalString(k), n).None?
  {
    var d := DecimalString(k);
    NegativeDecimal(k, "");
    assert "-" + d + "" == "-" + d;
    assert StripHash("-" + d) == "-" + d;
    assert ("#-" + d)[1..] == "-" + d;
  }

  /** The number the "valid status ID" reply names is the greatest usable index, and the next one is not usable. */
  lemma InvalidIndexNamesRange(n: nat)
    requires n > 0
    ensures var t := InvalidIndexText(n);
      StatusIndex(t[|InvalidIndexLead|..|t| - 1], n) == Some(n - 1)
    ensures StatusIndex(DecimalString(n), n).None?
  {
    var t := InvalidIndexText(n);
    assert t[|InvalidIndexLead|..|t| - 1] == DecimalString(n - 1);
    DecimalIndexAccepted(n - 1, n);
    DecimalIndexAccepted(n, n);
  }

  /**
   * A status posted in a channel. Its option store and persistence are not
   * part of the model: it records the option changes it is handed, in order.
   */
  class Status {
    var received: seq<OptionCall>

    constructor ()
      ensures received == []
    {
      received := [];
    }

    /** `deleteOption(client, option)`. */
    method DeleteOption(option: string)
      modifies this
      ensures received == old(received) + [DeleteCall(option)]
    {
      received := received + [DeleteCall(option)];
    }

    /** `setOption(client, option, value)`. */
    method SetOption(option: string, value: string)
      modifies this
      ensures received == old(received) + [SetCall(option, value)]
    {
      received := received + [SetCall(option, value)];
    }
  }

  /** The channel the command was sent in: the replies sent on it, in order. */
  class Channel {
    var sent: seq<Reply<Status>>

    constructor ()
      ensures sent == []
    {
      sent := [];
    }

    /** `channel.send(reply)`. */
    method Send(r: Reply<Status>)
      modifies this
      ensures sent == old(sent) + [r]
    {
      sent := sent + [r];
    }
  }

  /** The option calls `status` receives when `a` runs over `statuses`. */
  function CallsTo(status: Status, statuses: seq<Status>, a: Action): (calls: seq<OptionCall>)
    requires Addresses(a, |statuses|)
    ensures |calls| <= 1
    ensures calls != [] <==> Mutation(a).Some? && statuses[Mutation(a).value.0] == status
    ensures calls != [] ==> calls[0] == Mutation(a).value.1
  {
    match Mutation(a)
    case Some((i, c)) => if statuses[i] == status then [c] else []
    case None => []
  }

  /**
   * The handler. It sends exactly one reply, the one `Render` gives for
   * `Dispatch`, and hands the option change, if any, to the addressed
   * status only (a status listed twice is the same object, and receives
   * it once).
   */
  method Call(content: string, channel: Channel, entry: CacheEntry<Status>)
    modifies channel, set s | s in Normalise(entry)
    ensures channel.sent == old(channel.sent) +
      [Render(Dispatch(content, |Normalise(entry)|), Normalise(entry))]
    ensures forall s :: s in Normalise(entry) ==>
      s.received == old(s.received) + CallsTo(s, Normalise(entry), Dispatch(content, |Normalise(entry)|))
  {
    var args := Split(content)[1..];
    var statuses: seq<Status>;
    if entry.Absent? {
      statuses := [];
    } else if !entry.Many? {
      statuses := [entry.status];
    } else {
      statuses := entry.statuses;
    }
    assert statuses == Normalise(entry) && args == Args(content);
    Handle(args, statuses, channel);
  }

  /** The branches of the handler, once the arguments and the statuses are known. */
  method Handle(args: seq<string>, statuses: seq<Status>, channel: Channel)
    modifies channel, set s | s in statuses
    ensures channel.sent == old(channel.sent) + [Render(DispatchArgs(args, |statuses|), statuses)]
    ensures forall s :: s in statuses ==>
      s.received == old(s.received) + CallsTo(s, statuses, DispatchArgs(args, |statuses|))
  {
    ghost var a := DispatchArgs(args, |statuses|);
    if |args| > 0 {
      var index := ParseInt(StripHash(args[0]));
      if index.Int? && index.value < |statuses| && index.value >= 0 {
        var i: nat := index.value;
        assert StatusIndex(args[0], |statuses|) == Some(i);
        assert a == Addressed(i, args);
        Modify(i, args, statuses, channel);
      } else {
        assert StatusIndex(args[0], |statuses|).None?;
        assert forall s :: s in statuses ==> CallsTo(s, statuses, a) == [];
        if |statuses| == 0 {
          assert Render(a, statuses) == Plain(NoStatusesText);
          channel.Send(Plain(NoStatusesText));
        } else {
          assert Render(a, statuses) == Plain(InvalidIndexText(|statuses|));
          channel.Send(Plain(InvalidIndexText(|statuses|)));
        }
      }
    } else {
      assert a == List(|statuses|);
      assert forall s :: s in statuses ==> CallsTo(s, statuses, a) == [];
      ListStatuses(statuses, channel);
    }
  }

  /** The branch without arguments: the listing, one field per status. */
  method ListStatuses(statuses: seq<Status>, channel: Channel)
    modifies channel
    ensures channel.sent == old(channel.sent) + [Render(List(|statuses|), statuses)]
  {
    var fields := Listing(statuses);
    channel.Send(StatusList(DecimalString(|fields|) + " Active statuses", fields));
  }

  /** The branches for a usable index `i`: show, reset or set, by argument count. */
  method Modify(i: nat, args: seq<string>, statuses: seq<Status>, channel: Channel)
    requires |args| > 0 && i < |statuses|
    modifies channel, set s | s in statuses
    ensures channel.sent == old(channel.sent) + [Render(Addressed(i, args), statuses)]
    ensures forall s :: s in statuses ==>
      s.received == old(s.received) + CallsTo(s, statuses, Addressed(i, args))
  {
    if |args| == 1 {
      assert forall s :: s in statuses ==> CallsTo(s, statuses, Show(i)) == [];
      channel.Send(StatusOptions(Label(i), statuses[i]));
    } else if |args| == 2 {
      ResetOption(i, args[1], statuses, channel);
    } else {
      var value := Join(args[2..]);
      SetOption(i, args[1], value, statuses, channel);
    }
  }

  /** Resets `option` on the status at `i` and confirms it. */
  method ResetOption(i: nat, option: string, statuses: seq<Status>, channel: Channel)
    requires i < |statuses|
    modifies channel, statuses[i]
    ensures channel.sent == old(channel.sent) + [Render(Reset(i, option), statuses)]
    ensures forall s :: s in statuses ==>
      s.received == old(s.received) + CallsTo(s, statuses, Reset(i, option))
  {
    var status := statuses[i];
    status.DeleteOption(option);
    channel.Send(OptionReset(Label(i), status, option));
  }

  /** Sets `option` to `value` on the status at `i` and confirms it. */
  method SetOption(i: nat, option: string, value: string, statuses: seq<Status>, channel: Channel)
    requires i < |statuses|
    modifies channel, statuses[i]
    ensures channel.sent == old(channel.sent) + [Render(Set(i, option, value), statuses)]
    ensures forall s :: s in statuses ==>
      s.received == old(s.received) + CallsTo(s, statuses, Set(i, option, value))
  {
    var status := statuses[i];
    status.SetOption(option, value);
    channel.Send(OptionSet(Label(i), status, option));
  }
}
