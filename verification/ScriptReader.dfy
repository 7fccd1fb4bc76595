/** A reader for everything that a synchronisation installs: the lines of built flows
    and the raw lines of the ARP responders. What is installed is text, and this is the
    sense in which that text is the compiled flows. */
module ScriptReader {
  import opened Collections
  import opened Text
  import opened Flows
  import opened FlowReader

  /** The token that only responders have. */
  const ARP_TYPE := "dl_type=0x0806"

  function ReadArpAction(s: string): ArpAction {
    if s == ETH_MOVE then MoveEthSrcToEthDst
    else if s == OP_LOAD then LoadReplyOp
    else if s == SHA_MOVE then MoveShaToTha
    else if s == SPA_MOVE then MoveSpaToTpa
    else if s == TPA_MOVE then MoveTpaToSpa
    else if "mod_dl_src:" <= s then ModDlSrc(After(s, "mod_dl_src:"))
    else if "set_field:" <= s && |s| >= 19 then
      if s[|s| - 2] == 'h' then SetSha(s[10..|s| - 9]) else SetSpa(s[10..|s| - 9])
    else InPort
  }

  function ReadResponder(tokens: seq<string>): Responder
    requires |tokens| == 5
  {
    var f := ReadTokens(BLANK, tokens[..4]);
    var actions := if "actions=" <= tokens[4] then After(tokens[4], "actions=") else "";
    Responder(f.table, f.priority, f.arpDest, Map(ReadArpAction, Split(actions, ',')))
  }

  function ReadEntry(line: string): Entry {
    var tokens := Split(line, ' ');
    if |tokens| == 5 && tokens[2] == ARP_TYPE then Arp(ReadResponder(tokens)) else Plain(ReadFlow(line))
  }

  function ReadScript(text: string): seq<Entry> {
    var lines := Split(text, '\n');
    Map(ReadEntry, lines[..|lines| - 1])
  }

  // ----- Legible entries

  predicate LegibleAction(a: ArpAction) {
    match a
    case ModDlSrc(mac) => Plaintext(mac)
    case SetSha(mac) => Plaintext(mac)
    case SetSpa(ip) => Plaintext(ip)
    case _ => true
  }

  predicate LegibleEntry(e: Entry) {
    match e
    case Plain(f) => WellFormed(f)
    case Arp(r) => Plaintext(r.target) && r.actions != [] && forall a :: a in r.actions ==> LegibleAction(a)
  }

  // ----- Responders

  lemma ReadFixedAction(a: ArpAction)
    requires !a.ModDlSrc? && !a.SetSha? && !a.SetSpa?
    ensures ReadArpAction(a.Text()) == a
  {
    OtherStart("mod_dl_src:", "in_port", 0);
    OtherStart("set_field:", "in_port", 0);
    assert |ETH_MOVE| == |SHA_MOVE| == |SPA_MOVE| == |TPA_MOVE| == 39 && |OP_LOAD| == 25 && |"in_port"| == 7;
    assert ETH_MOVE[9] == SPA_MOVE[9] == TPA_MOVE[9] == 'O' && SHA_MOVE[9] == 'N';
    assert ETH_MOVE[12] == 'E' && SPA_MOVE[12] == TPA_MOVE[12] == 'A' && SPA_MOVE[16] == 'S' && TPA_MOVE[16] == 'T';
  }

  lemma ReadModDlSrc(x: string)
    ensures ReadArpAction("mod_dl_src:" + x) == ModDlSrc(x)
  {
    var m := "mod_dl_src:" + x;
    assert m[2] == 'd' && m[0] == 'm';
    assert ETH_MOVE[2] == SHA_MOVE[2] == SPA_MOVE[2] == TPA_MOVE[2] == 'v' && OP_LOAD[0] == 'l';
    assert After(m, "mod_dl_src:") == x;
  }

  lemma ReadSetField(x: string, suffix: string)
    requires |suffix| == 9
    ensures var s := "set_field:" + x + suffix;
            ReadArpAction(s) == if suffix[7] == 'h' then SetSha(x) else SetSpa(x)
  {
    var s := "set_field:" + x + suffix;
    assert s[0] == 's' && ETH_MOVE[0] == SHA_MOVE[0] == SPA_MOVE[0] == TPA_MOVE[0] == 'm' && OP_LOAD[0] == 'l';
    OtherStart("mod_dl_src:", s, 0);
    assert s[10..|s| - 9] == x && s[|s| - 2] == suffix[7];
  }

  lemma ReadActionText(a: ArpAction)
    ensures ReadArpAction(a.Text()) == a
  {
    match a
    case ModDlSrc(mac) => ReadModDlSrc(mac);
    case SetSha(mac) => ReadSetField(mac, "->arp_sha");
    case SetSpa(ip) => ReadSetField(ip, "->arp_spa");
    case _ => ReadFixedAction(a);
  }

  /** The separators of tokens, actions and lines. */
  predicate Separator(c: char) {
    c == ' ' || c == ',' || c == '\n'
  }

  lemma EthMoveIsFree(c: char)
    requires Separator(c)
    ensures c !in ETH_MOVE
  {
  }

  lemma OpLoadIsFree(c: char)
    requires Separator(c)
    ensures c !in OP_LOAD
  {
  }

  lemma ShaMoveIsFree(c: char)
    requires Separator(c)
    ensures c !in SHA_MOVE
  {
  }

  lemma SpaMoveIsFree(c: char)
    requires Separator(c)
    ensures c !in SPA_MOVE
  {
  }

  lemma TpaMoveIsFree(c: char)
    requires Separator(c)
    ensures c !in TPA_MOVE
  {
  }

  lemma MacTextsAreFree(x: string, c: char)
    requires Separator(c) && c !in x
    ensures c !in "mod_dl_src:" + x && c !in "set_field:" + x + "->arp_sha"
  {
  }

  lemma IPTextIsFree(x: string, c: char)
    requires Separator(c) && c !in x
    ensures c !in "set_field:" + x + "->arp_spa"
  {
  }

  lemma ActionTextIsFree(a: ArpAction, c: char)
    requires LegibleAction(a) && Separator(c)
    ensures c !in a.Text()
  {
    match a
    case MoveEthSrcToEthDst => EthMoveIsFree(c);
    case ModDlSrc(mac) => MacTextsAreFree(mac, c);
    case LoadReplyOp => OpLoadIsFree(c);
    case MoveShaToTha => ShaMoveIsFree(c);
    case MoveSpaToTpa => SpaMoveIsFree(c);
    case MoveTpaToSpa => TpaMoveIsFree(c);
    case SetSha(mac) => MacTextsAreFree(mac, c);
    case SetSpa(ip) => IPTextIsFree(ip, c);
    case InPort => assert c !in "in_port";
  }

  function ActionText(): ArpAction -> string {
    (a: ArpAction) => a.Text()
  }

  lemma ActionTextsAreFree(actions: seq<ArpAction>, c: char)
    requires (forall a :: a in actions ==> LegibleAction(a)) && Separator(c)
    ensures Free(c, Map(ActionText(), actions))
  {
    var texts := Map(ActionText(), actions);
    forall t | t in texts ensures c !in t {
      var i :| 0 <= i < |texts| && texts[i] == t;
      ActionTextIsFree(actions[i], c);
    }
  }

  lemma ReadActionTexts(actions: seq<ArpAction>)
    requires actions != [] && forall a :: a in actions ==> LegibleAction(a)
    ensures Map(ReadArpAction, Split(Commas(Map(ActionText(), actions)), ',')) == actions
  {
    var texts := Map(ActionText(), actions);
    ActionTextsAreFree(actions, ',');
    SplitJoin(texts, ',');
    forall i | 0 <= i < |actions| ensures ReadArpAction(texts[i]) == actions[i] {
      ReadActionText(actions[i]);
    }
  }

  function ResponderTokens(r: Responder): seq<string> {
    ["table=" + IntText(r.table), "priority=" + IntText(r.priority), ARP_TYPE, "arp_tpa=" + r.target,
     "actions=" + Commas(Map(ActionText(), r.actions))]
  }

  lemma JoinFive(a: string, b: string, c: string, d: string, e: string)
    ensures Join([a, b, c, d, e], ' ') == a + " " + b + " " + c + " " + d + " " + e
  {
    assert [a, b, c, d, e][1..] == [b, c, d, e] && [b, c, d, e][1..] == [c, d, e];
    assert [c, d, e][1..] == [d, e] && [d, e][1..] == [e];
    assert Join([d, e], ' ') == d + " " + e;
    assert Join([c, d, e], ' ') == c + " " + Join([d, e], ' ');
    assert Join([b, c, d, e], ' ') == b + " " + Join([c, d, e], ' ');
  }

  lemma ResponderTextIsJoin(r: Responder)
    ensures r.Text() == Join(ResponderTokens(r), ' ')
  {
    var actions := Commas(Map(ActionText(), r.actions));
    SameTexts(r.actions);
    JoinFive("table=" + IntText(r.table), "priority=" + IntText(r.priority), ARP_TYPE, "arp_tpa=" + r.target,
             "actions=" + actions);
    ResponderPieces(IntText(r.table), IntText(r.priority), r.target, actions);
  }

  lemma {:induction false} SameTexts(actions: seq<ArpAction>)
    ensures Map((a: ArpAction) => a.Text(), actions) == Map(ActionText(), actions)
  {
    if actions != [] {
      SameTexts(actions[..|actions| - 1]);
    }
  }

  lemma ResponderPieces(t: string, p: string, x: string, a: string)
    ensures "table=" + t + " priority=" + p + " dl_type=0x0806 arp_tpa=" + x + " actions=" + a
            == ("table=" + t) + " " + ("priority=" + p) + " " + ARP_TYPE + " " + ("arp_tpa=" + x) + " " + ("actions=" + a)
  {
    var h, k := "table=" + t, "table=" + t + " priority=" + p;
    assert k == h + " " + ("priority=" + p);
    assert " dl_type=0x0806 arp_tpa=" == " " + ARP_TYPE + " " + "arp_tpa=";
    var m := k + " " + ARP_TYPE + " " + ("arp_tpa=" + x);
    assert k + " dl_type=0x0806 arp_tpa=" + x == m;
    assert m + " actions=" + a == m + " " + ("actions=" + a);
  }

  lemma ResponderTokensAreFree(r: Responder, c: char)
    requires LegibleEntry(Arp(r)) && (c == ' ' || c == '\n')
    ensures Free(c, ResponderTokens(r))
  {
    KeysAreFree(c);
    ResubmitIsFree(c);
    NumbersAreFree(r.table, c);
    NumbersAreFree(r.priority, c);
    ActionTextsAreFree(r.actions, c);
    JoinFree(Map(ActionText(), r.actions), ',', c);
    assert c !in ARP_TYPE;
  }

  lemma ReadResponderHead(r: Responder)
    ensures var f := ReadTokens(BLANK, ResponderTokens(r)[..4]);
            f.table == r.table && f.priority == r.priority && f.arpDest == r.target
  {
    var t := ResponderTokens(r)[..4];
    assert t[..3][..2] == t[..2] && t[..2][..1] == t[..1] && t[..1][..0] == [];
    ReadNumberTokens(BLANK, r.table);
    var f1 := ReadTokens(BLANK, t[..1]);
    ReadNumberTokens(f1, r.priority);
    var f2 := ReadTokens(BLANK, t[..2]);
    ReadTypeToken(f2);
    var f3 := ReadTokens(BLANK, t[..3]);
    assert t[..4] == t && t[..|t| - 1] == t[..3];
    ReadArpTokens(f3, r.target);
  }

  lemma ReadTypeToken(f: FlowSpec)
    ensures ReadToken(f, ARP_TYPE) == f.(protocol := ARP_TYPE)
  {
    NotLeading(ARP_TYPE);
    NotIP(ARP_TYPE);
    NotArp(ARP_TYPE);
    NotTCP(ARP_TYPE);
    OtherStart("udp_dst=", ARP_TYPE, 0);
    OtherStart("udp_src=", ARP_TYPE, 0);
    OtherStart("actions=", ARP_TYPE, 0);
  }

  lemma ResponderIsReadable(r: Responder)
    requires LegibleEntry(Arp(r))
    ensures ReadEntry(r.Text()) == Arp(r) && '\n' !in r.Text()
  {
    var tokens := ResponderTokens(r);
    ResponderTextIsJoin(r);
    ResponderTokensAreFree(r, ' ');
    ResponderTokensAreFree(r, '\n');
    SplitJoin(tokens, ' ');
    JoinFree(tokens, ' ', '\n');
    ReadResponderHead(r);
    ReadActionTexts(r.actions);
    assert After(tokens[4], "actions=") == Commas(Map(ActionText(), r.actions));
  }

  // ----- Built flows

  /** No token of a built flow is taken for a responder's. */
  predicate NoArpType(tokens: seq<string>) {
    ARP_TYPE !in tokens
  }

  lemma OptionalIsNoArpType(present: bool, key: string, value: string)
    requires key != "" && key[0] != 'd'
    ensures NoArpType(Optional(present, key + value))
  {
    assert (key + value)[0] != ARP_TYPE[0];
  }

  lemma MatchTokensAreNoArpType(f: FlowSpec)
    requires '=' !in f.protocol
    ensures NoArpType(MatchTokens(f))
  {
    assert ARP_TYPE[7] == '=';
    OptionalIsNoArpType(true, "table=", IntText(f.table));
    OptionalIsNoArpType(true, "priority=", IntText(f.priority));
    assert NoArpType(HeadTokens(f));
    OptionalIsNoArpType(f.ipDest != "", "nw_dst=", f.ipDest);
    OptionalIsNoArpType(f.ipSrc != "", "nw_src=", f.ipSrc);
    var t := AddIPTokens(HeadTokens(f), f);
    assert NoArpType(t);
    OptionalIsNoArpType(f.arpDest != "", "arp_tpa=", f.arpDest);
    OptionalIsNoArpType(f.arpSrc != "", "arp_spa=", f.arpSrc);
    t := AddArpTokens(t, f);
    assert NoArpType(t);
    OptionalIsNoArpType(f.tcpDestPort != 0, "tcp_dst=", IntText(f.tcpDestPort));
    OptionalIsNoArpType(f.tcpSrcPort != 0, "tcp_src=", IntText(f.tcpSrcPort));
    t := AddTCPTokens(t, f);
    assert NoArpType(t);
    OptionalIsNoArpType(f.udpDestPort != 0, "udp_dst=", IntText(f.udpDestPort));
    OptionalIsNoArpType(f.udpSrcPort != 0, "udp_src=", IntText(f.udpSrcPort));
  }

  lemma FlowIsReadable(f: FlowSpec)
    requires WellFormed(f)
    ensures ReadEntry(Render(f)) == Plain(f) && '\n' !in Render(f)
  {
    LineIsReadable(f);
    LineSplits(f);
    MatchTokensAreNoArpType(f);
    OptionalIsNoArpType(true, "actions=", Commas(ActionTokens(f)));
    var tokens := LineTokens(f);
    assert ARP_TYPE !in tokens;
  }

  // ----- Whole scripts

  lemma EntryIsReadable(e: Entry)
    requires LegibleEntry(e)
    ensures ReadEntry(e.Text()) == e && '\n' !in e.Text()
  {
    match e
    case Plain(f) => FlowIsReadable(f);
    case Arp(r) => ResponderIsReadable(r);
  }

  lemma LinesAreFree(entries: seq<Entry>)
    requires forall e :: e in entries ==> LegibleEntry(e)
    ensures Free('\n', Lines(entries))
  {
    var lines := Lines(entries);
    forall line | line in lines ensures '\n' !in line {
      var i :| 0 <= i < |lines| && lines[i] == line;
      EntryIsReadable(entries[i]);
    }
  }

  /** Whatever legible flows were added since the last reset, built or raw, are read back
      from the buffer in order and with every field. */
  lemma ScriptIsReadable(entries: seq<Entry>)
    requires forall e :: e in entries ==> LegibleEntry(e)
    ensures ReadScript(Unlines(Lines(entries))) == entries
  {
    var lines := Lines(entries);
    LinesAreFree(entries);
    BufferSplits(lines);
    assert (lines + [""])[..|lines|] == lines;
    forall i | 0 <= i < |entries| ensures ReadEntry(lines[i]) == entries[i] {
      EntryIsReadable(entries[i]);
    }
  }
}
