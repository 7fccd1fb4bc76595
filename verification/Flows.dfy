/** Flow entries, their textual form, the builder that assembles one and the
    buffer that collects them. */
module Flows {
  import opened Collections
  import opened Text

  /** The fields of a flow built without `WithRaw`. A zero number, an empty text
      and `false` mean that the field was not set. */
  datatype FlowSpec = FlowSpec(
    table: int, priority: int,
    protocol: string, ipDest: string, ipSrc: string, arpDest: string, arpSrc: string,
    tcpDestPort: int, tcpSrcPort: int, udpDestPort: int, udpSrcPort: int,
    tunDest: string, modDlDest: string, output: int, resubmit: int, drop: bool, local: bool)

  const BLANK := FlowSpec(0, 0, "", "", "", "", "", 0, 0, 0, 0, "", "", 0, 0, false, false)

  function Optional(present: bool, token: string): seq<string> {
    if present then [token] else []
  }

  function HeadTokens(f: FlowSpec): seq<string> {
    ["table=" + IntText(f.table)] + ["priority=" + IntText(f.priority)]
    + Optional(f.protocol != "", f.protocol)
  }

  function AddIPTokens(t: seq<string>, f: FlowSpec): seq<string> {
    t + Optional(f.ipDest != "", "nw_dst=" + f.ipDest) + Optional(f.ipSrc != "", "nw_src=" + f.ipSrc)
  }

  function AddArpTokens(t: seq<string>, f: FlowSpec): seq<string> {
    t + Optional(f.arpDest != "", "arp_tpa=" + f.arpDest) + Optional(f.arpSrc != "", "arp_spa=" + f.arpSrc)
  }

  function AddTCPTokens(t: seq<string>, f: FlowSpec): seq<string> {
    t + Optional(f.tcpDestPort != 0, "tcp_dst=" + IntText(f.tcpDestPort))
      + Optional(f.tcpSrcPort != 0, "tcp_src=" + IntText(f.tcpSrcPort))
  }

  function AddUDPTokens(t: seq<string>, f: FlowSpec): seq<string> {
    t + Optional(f.udpDestPort != 0, "udp_dst=" + IntText(f.udpDestPort))
      + Optional(f.udpSrcPort != 0, "udp_src=" + IntText(f.udpSrcPort))
  }

  /** The set match fields, in the order they are written. */
  function MatchTokens(f: FlowSpec): (t: seq<string>)
    ensures t != []
  {
    AddUDPTokens(AddTCPTokens(AddArpTokens(AddIPTokens(HeadTokens(f), f), f), f), f)
  }

  function RewriteTokens(f: FlowSpec): seq<string> {
    Optional(f.modDlDest != "", "mod_dl_dst:" + f.modDlDest)
    + Optional(f.tunDest != "", "set_field:" + f.tunDest + "->tun_dst")
    + Optional(f.output != 0, "output:" + IntText(f.output))
  }

  /** The set actions, in the order they are written and carried out. */
  function ActionTokens(f: FlowSpec): seq<string> {
    RewriteTokens(f)
    + Optional(f.resubmit != 0, "resubmit(," + IntText(f.resubmit) + ")")
    + Optional(f.drop, "drop")
    + Optional(f.local, "local")
  }

  /** `strings.Join(parts, ",")`, which accepts an empty list. */
  function Commas(parts: seq<string>): string {
    if parts == [] then "" else Join(parts, ',')
  }

  /** The `ovs-ofctl` line of a flow: its set fields, separated by blanks. */
  function Render(f: FlowSpec): string {
    Join(MatchTokens(f) + ["actions=" + Commas(ActionTokens(f))], ' ')
  }

  // ----- ARP responders, the only flows written as raw text

  const ETH_MOVE := "move:NXM_OF_ETH_SRC[]->NXM_OF_ETH_DST[]"
  const OP_LOAD := "load:0x2->NXM_OF_ARP_OP[]"
  const SHA_MOVE := "move:NXM_NX_ARP_SHA[]->NXM_NX_ARP_THA[]"
  const SPA_MOVE := "move:NXM_OF_ARP_SPA[]->NXM_OF_ARP_TPA[]"
  const TPA_MOVE := "move:NXM_OF_ARP_TPA[]->NXM_OF_ARP_SPA[]"

  datatype ArpAction =
    | MoveEthSrcToEthDst
    | ModDlSrc(mac: string)
    | LoadReplyOp
    | MoveShaToTha
    | MoveSpaToTpa
    | MoveTpaToSpa
    | SetSha(mac: string)
    | SetSpa(ip: string)
    | InPort
  {
    function Text(): string {
      match this
      case MoveEthSrcToEthDst => ETH_MOVE
      case ModDlSrc(mac) => "mod_dl_src:" + mac
      case LoadReplyOp => OP_LOAD
      case MoveShaToTha => SHA_MOVE
      case MoveSpaToTpa => SPA_MOVE
      case MoveTpaToSpa => TPA_MOVE
      case SetSha(mac) => "set_field:" + mac + "->arp_sha"
      case SetSpa(ip) => "set_field:" + ip + "->arp_spa"
      case InPort => "in_port"
    }
  }

  datatype Responder = Responder(table: int, priority: int, target: string, actions: seq<ArpAction>) {
    function Text(): string {
      "table=" + IntText(table) + " priority=" + IntText(priority) + " dl_type=0x0806 arp_tpa=" + target
      + " actions=" + Commas(Map((a: ArpAction) => a.Text(), actions))
    }
  }

  /** One installed flow: built from fields, or an ARP responder. */
  datatype Entry = Plain(flow: FlowSpec) | Arp(responder: Responder) {
    function Table(): int {
      if Plain? then flow.table else responder.table
    }

    function Priority(): int {
      if Plain? then flow.priority else responder.priority
    }

    function Text(): string {
      if Plain? then Render(flow) else responder.Text()
    }
  }

  function TextOf(): Entry -> string {
    (e: Entry) => e.Text()
  }

  /** The lines that install `entries`, in order. */
  function Lines(entries: seq<Entry>): seq<string> {
    Map(TextOf(), entries)
  }

  lemma {:induction false} JoinLast(parts: seq<string>, last: string, sep: char)
    requires parts != []
    ensures Join(parts + [last], sep) == Join(parts, sep) + [sep] + last
  {
    if |parts| > 1 {
      JoinLast(parts[1..], last, sep);
      assert (parts + [last])[1..] == parts[1..] + [last];
    } else {
      assert (parts + [last])[1..] == [last];
    }
  }

  // ----- The builder

  /** One step of `String`: appends a blank and `token` when the field is present. */
  method AddToken(text: string, present: bool, token: string, ghost tokens: seq<string>)
    returns (r: string, ghost t: seq<string>)
    requires tokens != [] && text == Join(tokens, ' ')
    ensures t == tokens + Optional(present, token) && r == Join(t, ' ')
  {
    r, t := text, tokens;
    if present {
      JoinLast(tokens, token, ' ');
      r, t := text + " " + token, tokens + [token];
    }
  }

  class Flow {
    var table: int
    var priority: int
    var protocol: string
    var ipDest: string
    var ipSrc: string
    var arpDest: string
    var arpSrc: string
    var tcpDestPort: int
    var tcpSrcPort: int
    var udpDestPort: int
    var udpSrcPort: int
    var tunDest: string
    var modDlDest: string
    var output: int
    var resubmit: int
    var drop: bool
    var local: bool
    var raw: string

    ghost function Spec(): FlowSpec
      reads this
    {
      FlowSpec(table, priority, protocol, ipDest, ipSrc, arpDest, arpSrc, tcpDestPort, tcpSrcPort,
               udpDestPort, udpSrcPort, tunDest, modDlDest, output, resubmit, drop, local)
    }

    /** The line this flow denotes: raw text takes precedence over the fields. */
    ghost function Line(): string
      reads this
    {
      if raw != "" then raw else Render(Spec())
    }

    constructor ()
      ensures Spec() == BLANK && raw == ""
    {
      table, priority, protocol := 0, 0, "";
      ipDest, ipSrc, arpDest, arpSrc := "", "", "", "";
      tcpDestPort, tcpSrcPort, udpDestPort, udpSrcPort := 0, 0, 0, 0;
      tunDest, modDlDest, output, resubmit := "", "", 0, 0;
      drop, local, raw := false, false, "";
    }

    /** Appends the set match fields one by one, as text: up to the addresses of IP packets ... */
    method MatchHead() returns (s: string, ghost t: seq<string>)
      ensures t == AddIPTokens(HeadTokens(Spec()), Spec()) && t != [] && s == Join(t, ' ')
    {
      t := ["table=" + IntText(table)] + ["priority=" + IntText(priority)];
      s := "table=" + IntText(table) + " priority=" + IntText(priority);
      JoinLast(["table=" + IntText(table)], "priority=" + IntText(priority), ' ');
      s, t := AddToken(s, protocol != "", protocol, t);
      s, t := AddToken(s, ipDest != "", "nw_dst=" + ipDest, t);
      s, t := AddToken(s, ipSrc != "", "nw_src=" + ipSrc, t);
    }

    /** ... and the rest. */
    method MatchText() returns (s: string)
      ensures s == Join(MatchTokens(Spec()), ' ')
    {
      ghost var t;
      s, t := MatchHead();
      s, t := AddToken(s, arpDest != "", "arp_tpa=" + arpDest, t);
      s, t := AddToken(s, arpSrc != "", "arp_spa=" + arpSrc, t);
      s, t := AddToken(s, tcpDestPort != 0, "tcp_dst=" + IntText(tcpDestPort), t);
      s, t := AddToken(s, tcpSrcPort != 0, "tcp_src=" + IntText(tcpSrcPort), t);
      s, t := AddToken(s, udpDestPort != 0, "udp_dst=" + IntText(udpDestPort), t);
      s, t := AddToken(s, udpSrcPort != 0, "udp_src=" + IntText(udpSrcPort), t);
    }

    method ActionSet() returns (actionSet: seq<string>)
      ensures actionSet == ActionTokens(Spec())
    {
      actionSet := Optional(modDlDest != "", "mod_dl_dst:" + modDlDest);
      actionSet := actionSet + Optional(tunDest != "", "set_field:" + tunDest + "->tun_dst");
      actionSet := actionSet + Optional(output != 0, "output:" + IntText(output));
      actionSet := actionSet + Optional(resubmit != 0, "resubmit(," + IntText(resubmit) + ")");
      actionSet := actionSet + Optional(drop, "drop");
      actionSet := actionSet + Optional(local, "local");
    }

    method String() returns (s: string)
      ensures s == Line()
    {
      if raw != "" {
        return raw;
      }
      s := MatchText();
      var actionSet := ActionSet();
      JoinLast(MatchTokens(Spec()), "actions=" + Commas(actionSet), ' ');
      s := s + " " + ("actions=" + Commas(actionSet));
    }

    method WithTable(table: int) returns (f: Flow)
      modifies this
      ensures f == this && raw == old(raw) && Spec() == old(Spec()).(table := table)
    {
      this.table := table;
      f := this;
    }

    method WithPriority(priority: int) returns (f: Flow)
      modifies this
      ensures f == this && raw == old(raw) && Spec() == old(Spec()).(priority := priority)
    {
      this.priority := priority;
      f := this;
    }

    method WithProtocol(protocol: string) returns (f: Flow)
      modifies this
      ensures f == this && raw == old(raw) && Spec() == old(Spec()).(protocol := protocol)
    {
      this.protocol := protocol;
      f := this;
    }

    method WithIPDest(ipDst: string) returns (f: Flow)
      modifies this
      ensures f == this && raw == old(raw) && Spec() == old(Spec()).(ipDest := ipDst)
    {
      ipDest := ipDst;
      f := this;
    }

    method WithIPSrc(ipSrc: string) returns (f: Flow)
      modifies this
      ensures f == this && raw == old(raw) && Spec() == old(Spec()).(ipSrc := ipSrc)
    {
      this.ipSrc := ipSrc;
      f := this;
    }

    method WithTCPDestPort(dstPort: int) returns (f: Flow)
      modifies this
      ensures f == this && raw == old(raw) && Spec() == old(Spec()).(tcpDestPort := dstPort)
    {
      tcpDestPort := dstPort;
      f := this;
    }

    method WithUDPDestPort(dstPort: int) returns (f: Flow)
      modifies this
      ensures f == this && raw == old(raw) && Spec() == old(Spec()).(udpDestPort := dstPort)
    {
      udpDestPort := dstPort;
      f := this;
    }

    method WithRaw(raw: string) returns (f: Flow)
      modifies this
      ensures f == this && this.raw == raw && Spec() == old(Spec())
    {
      this.raw := raw;
      f := this;
    }

    method WithActionModDlDest(dstMac: string) returns (f: Flow)
      modifies this
      ensures f == this && raw == old(raw) && Spec() == old(Spec()).(modDlDest := dstMac)
    {
      modDlDest := dstMac;
      f := this;
    }

    method WithActionTunnelDest(tunDst: string) returns (f: Flow)
      modifies this
      ensures f == this && raw == old(raw) && Spec() == old(Spec()).(tunDest := tunDst)
    {
      tunDest := tunDst;
      f := this;
    }

    method WithActionOutputPort(output: int) returns (f: Flow)
      modifies this
      ensures f == this && raw == old(raw) && Spec() == old(Spec()).(output := output)
    {
      this.output := output;
      f := this;
    }

    method WithActionDrop() returns (f: Flow)
      modifies this
      ensures f == this && raw == old(raw) && Spec() == old(Spec()).(drop := true)
    {
      drop := true;
      f := this;
    }

    method WithActionResubmit(table: int) returns (f: Flow)
      modifies this
      ensures f == this && raw == old(raw) && Spec() == old(Spec()).(resubmit := table)
    {
      resubmit := table;
      f := this;
    }

    method WithActionLocal() returns (f: Flow)
      modifies this
      ensures f == this && raw == old(raw) && Spec() == old(Spec()).(local := true)
    {
      local := true;
      f := this;
    }
  }

  // ----- The buffer

  /** Every line followed by a newline. */
  function Unlines(lines: seq<string>): string {
    if lines == [] then "" else Unlines(lines[..|lines| - 1]) + lines[|lines| - 1] + "\n"
  }

  class FlowsBuffer {
    var buffer: string
    ghost var lines: seq<string>  // the lines added since the last reset

    ghost predicate Valid()
      reads this
    {
      buffer == Unlines(lines)
    }

    constructor ()
      ensures Valid() && lines == []
    {
      buffer, lines := "", [];
    }

    method AddFlow(flow: Flow)
      requires Valid()
      modifies this
      ensures Valid() && lines == old(lines) + [flow.Line()]
    {
      var text := flow.String();
      buffer := buffer + text;
      buffer := buffer + "\n";
      lines := lines + [text];
    }

    method Reset()
      modifies this
      ensures Valid() && lines == []
    {
      buffer, lines := "", [];
    }
  }
}
