/** What the text of an action list does to a packet when its actions are carried out one
    after another: a rewriting action changes the packet, and an output or a resubmit takes
    the packet as it is at that moment. Packet fields go by the names that Open vSwitch
    gives them. */
module Execution {
  import opened Collections
  import opened Text
  import opened Addresses
  import opened Flows
  import opened FlowReader
  import opened ScriptReader
  import opened Switch

  // ----- Packet fields by name

  datatype Value = Mac(text: string) | Address(ip: Ip) | Number(n: int)

  datatype Field = EthSrc | EthDst | ArpOp | ArpSha | ArpTha | ArpSpa | ArpTpa

  function FieldOf(name: string): Option<Field> {
    if name == "NXM_OF_ETH_SRC" then Some(EthSrc)
    else if name == "NXM_OF_ETH_DST" then Some(EthDst)
    else if name == "NXM_OF_ARP_OP" then Some(ArpOp)
    else if name == "NXM_NX_ARP_SHA" then Some(ArpSha)
    else if name == "NXM_NX_ARP_THA" then Some(ArpTha)
    else if name == "NXM_OF_ARP_SPA" then Some(ArpSpa)
    else if name == "NXM_OF_ARP_TPA" then Some(ArpTpa)
    else None
  }

  function Get(f: Field, p: Packet): Option<Value> {
    if f.EthSrc? then Some(Mac(p.dlSrc))
    else if f.EthDst? then Some(Mac(p.dlDst))
    else if !p.payload.ARP? then None
    else
      match f
      case ArpOp => Some(Number(p.payload.op))
      case ArpSha => Some(Mac(p.payload.sha))
      case ArpTha => Some(Mac(p.payload.tha))
      case ArpSpa => Some(Address(p.payload.spa))
      case ArpTpa => Some(Address(p.payload.tpa))
  }

  /** A value of another kind is not written. */
  function Put(f: Field, v: Value, p: Packet): Packet {
    if f.EthSrc? && v.Mac? then p.(dlSrc := v.text)
    else if f.EthDst? && v.Mac? then p.(dlDst := v.text)
    else if !p.payload.ARP? then p
    else if f.ArpOp? && v.Number? then p.(payload := p.payload.(op := v.n))
    else if f.ArpSha? && v.Mac? then p.(payload := p.payload.(sha := v.text))
    else if f.ArpTha? && v.Mac? then p.(payload := p.payload.(tha := v.text))
    else if f.ArpSpa? && v.Address? then p.(payload := p.payload.(spa := v.ip))
    else if f.ArpTpa? && v.Address? then p.(payload := p.payload.(tpa := v.ip))
    else p
  }

  function Move(source: string, target: string, p: Packet): Packet {
    if FieldOf(source).Some? && FieldOf(target).Some? && Get(FieldOf(source).value, p).Some?
    then Put(FieldOf(target).value, Get(FieldOf(source).value, p).value, p)
    else p
  }

  function Load(n: Option<int>, target: string, p: Packet): Packet {
    if n.Some? && FieldOf(target).Some? then Put(FieldOf(target).value, Number(n.value), p) else p
  }

  /** `set_field`, whose fields have names of their own. */
  function SetField(field: string, text: string, p: Packet): Packet {
    if field == "tun_dst" then p.(tunDst := ParseIP(text))
    else if field == "arp_sha" then Put(ArpSha, Mac(text), p)
    else if field == "arp_spa" && ParseIP(text).Some? then Put(ArpSpa, Address(ParseIP(text).value), p)
    else p
  }

  // ----- The parts of an action

  /** The text before the first colon, and the text after it. */
  function Keyword(s: string): string {
    if s == [] || s[0] == ':' then [] else [s[0]] + Keyword(s[1..])
  }

  function Argument(s: string): string {
    if |Keyword(s)| < |s| then s[|Keyword(s)| + 1..] else []
  }

  /** The text before the first arrow, and the text after it. */
  function Source(s: string): string {
    if s == [] || "->" <= s then [] else [s[0]] + Source(s[1..])
  }

  function Target(s: string): string {
    if |Source(s)| + 2 <= |s| then s[|Source(s)| + 2..] else []
  }

  /** A register is named with brackets after it: all of its bits. */
  function Register(s: string): string {
    if |s| >= 2 && s[|s| - 2..] == "[]" then s[..|s| - 2] else s
  }

  function HexValue(c: char): Option<int> {
    if '0' <= c <= '9' then Some(c as int - '0' as int)
    else if 'a' <= c <= 'f' then Some(c as int - 'a' as int + 10)
    else None
  }

  /** `0x` and one digit, which is all that is used. */
  function ReadHex(s: string): Option<int> {
    if |s| == 3 && "0x" <= s then HexValue(s[2]) else None
  }

  // ----- Carrying out actions

  /** The packet as rewritten so far, and what became of it on the way. */
  datatype Progress = Progress(packet: Packet, effects: seq<Next>)

  /** What an action that has an argument does to the packet. */
  function Rewriting(s: string, p: Packet): Packet {
    var k, a := Keyword(s), Argument(s);
    if k == s then p
    else if k == "mod_dl_src" then p.(dlSrc := a)
    else if k == "mod_dl_dst" then p.(dlDst := a)
    else if k == "set_field" then SetField(Target(a), Source(a), p)
    else if k == "move" then Move(Register(Source(a)), Register(Target(a)), p)
    else if k == "load" then Load(ReadHex(Source(a)), Register(Target(a)), p)
    else p
  }

  /** Where an action sends the packet. */
  function Effect(s: string, p: Packet): seq<Next> {
    if Keyword(s) != s then
      match if Keyword(s) == "output" then ReadInt(Argument(s)) else None
      case None => []
      case Some(n) => [Done(Sent(Numbered(n), p))]
    else if s == "local" then [Done(Sent(LocalPort, p))]
    else if s == "in_port" then [Done(Sent(IngressPort, p))]
    else if s != [] && s[|s| - 1] == ')' then
      match ReadInt(s[..|s| - 1])
      case None => []
      case Some(t) => [Goto(t, p)]
    else []
  }

  function Perform(x: Progress, s: string): Progress {
    Progress(Rewriting(s, x.packet), x.effects + Effect(s, x.packet))
  }

  function PerformAll(x: Progress, pieces: seq<string>): Progress {
    if pieces == [] then x
    else Perform(PerformAll(x, pieces[..|pieces| - 1]), pieces[|pieces| - 1])
  }

  /** The pieces between the commas of the line's action list; the comma inside
      `resubmit(,N)` cuts that action in two, of which the second piece acts. */
  function ActionList(line: string): seq<string> {
    var tokens := Split(line, ' ');
    var last := tokens[|tokens| - 1];
    Split(if "actions=" <= last then After(last, "actions=") else "", ',')
  }

  /** Everything that becomes of a packet for which the line is selected. */
  function Execute(line: string, p: Packet): seq<Next> {
    PerformAll(Progress(p, []), ActionList(line)).effects
  }

  // ----- The parts of the texts in use

  lemma {:induction false} KeywordOf(k: string, a: string)
    requires ':' !in k
    ensures Keyword(k + ":" + a) == k && Argument(k + ":" + a) == a
  {
    var s := k + ":" + a;
    if k != [] {
      KeywordOf(k[1..], a);
      assert s[1..] == k[1..] + ":" + a;
    }
  }

  lemma {:induction false} NoKeyword(s: string)
    requires ':' !in s
    ensures Keyword(s) == s
  {
    if s != [] {
      NoKeyword(s[1..]);
    }
  }

  lemma {:induction false} ArrowOf(a: string, b: string)
    requires '>' !in a
    ensures Source(a + "->" + b) == a && Target(a + "->" + b) == b
  {
    var s := a + "->" + b;
    if a != [] {
      ArrowOf(a[1..], b);
      assert s[1..] == a[1..] + "->" + b;
      assert !("->" <= s) by {
        if |a| > 1 {
          assert s[1] == a[1];
        } else {
          assert s[1] == '-';
        }
      }
    } else {
      assert s == "->" + b;
    }
  }

  lemma RegisterOf(name: string)
    ensures Register(name + "[]") == name
  {
    assert (name + "[]")[|name|..] == "[]";
  }

  lemma PerformLast(x: Progress, a: seq<string>, present: bool, piece: string)
    ensures PerformAll(x, a + Optional(present, piece))
            == if present then Perform(PerformAll(x, a), piece) else PerformAll(x, a)
  {
    if present {
      assert (a + [piece])[..|a|] == a;
    } else {
      assert a + [] == a;
    }
  }

  // ----- The actions of built flows

  lemma PerformModDlDst(x: Progress, mac: string)
    ensures Perform(x, "mod_dl_dst:" + mac) == Progress(x.packet.(dlDst := mac), x.effects)
  {
    assert "mod_dl_dst:" + mac == "mod_dl_dst" + ":" + mac;
    KeywordOf("mod_dl_dst", mac);
    assert |"mod_dl_dst"| == |"mod_dl_src"| == 10 && "mod_dl_dst"[7] == 'd' && "mod_dl_src"[7] == 's';
  }

  lemma PerformSetTunDst(x: Progress, ip: string)
    requires '>' !in ip
    ensures Perform(x, "set_field:" + ip + "->tun_dst") == Progress(x.packet.(tunDst := ParseIP(ip)), x.effects)
  {
    assert "set_field:" + ip + "->tun_dst" == "set_field" + ":" + (ip + "->" + "tun_dst");
    KeywordOf("set_field", ip + "->" + "tun_dst");
    ArrowOf(ip, "tun_dst");
  }

  lemma PerformOutput(x: Progress, n: int)
    ensures Perform(x, "output:" + IntText(n)) == Progress(x.packet, x.effects + [Done(Sent(Numbered(n), x.packet))])
  {
    assert "output:" + IntText(n) == "output" + ":" + IntText(n);
    KeywordOf("output", IntText(n));
    ReadIntText(n);
  }

  lemma PerformBare(x: Progress, s: string)
    requires ':' !in s
    ensures Perform(x, s) == Progress(x.packet, x.effects + Effect(s, x.packet)) && Keyword(s) == s
  {
    NoKeyword(s);
  }

  lemma PerformGoto(x: Progress, n: int)
    ensures Perform(x, IntText(n) + ")") == Progress(x.packet, x.effects + [Goto(n, x.packet)])
  {
    var s := IntText(n) + ")";
    IntTextChars(n);
    PerformBare(x, s);
    ReadIntText(n);
    assert s[..|s| - 1] == IntText(n);
    assert "local"[4] == 'l' && "in_port"[6] == 't' && s[|s| - 1] == ')';
  }

  lemma PerformOpening(x: Progress)
    ensures Perform(x, "resubmit(") == x
  {
    NothingHappens(x, "resubmit(");
  }

  lemma NothingHappens(x: Progress, s: string)
    requires ':' !in s && s != "local" && s != "in_port" && s != [] && s[|s| - 1] != ')'
    ensures Perform(x, s) == x
  {
    PerformBare(x, s);
    assert Effect(s, x.packet) == [];
    assert x.effects + [] == x.effects;
  }

  lemma PerformDrop(x: Progress)
    ensures Perform(x, "drop") == x
  {
    NothingHappens(x, "drop");
  }

  lemma PerformLocal(x: Progress)
    ensures Perform(x, "local") == Progress(x.packet, x.effects + [Done(Sent(LocalPort, x.packet))])
  {
    PerformBare(x, "local");
  }

  lemma PerformInPort(x: Progress)
    ensures Perform(x, "in_port") == Progress(x.packet, x.effects + [Done(Sent(IngressPort, x.packet))])
  {
    PerformBare(x, "in_port");
    assert |"local"| == 5;
  }

  lemma PerformFirst(f: FlowSpec, p: Packet)
    ensures PerformAll(Progress(p, []), Optional(f.modDlDest != "", "mod_dl_dst:" + f.modDlDest))
            == Progress(if f.modDlDest != "" then p.(dlDst := f.modDlDest) else p, [])
  {
    var x, m := Progress(p, []), Optional(f.modDlDest != "", "mod_dl_dst:" + f.modDlDest);
    assert [] + m == m;
    PerformLast(x, [], f.modDlDest != "", "mod_dl_dst:" + f.modDlDest);
    PerformModDlDst(x, f.modDlDest);
  }

  lemma PerformSecond(f: FlowSpec, p: Packet)
    requires '>' !in f.tunDest
    ensures PerformAll(Progress(p, []), Optional(f.modDlDest != "", "mod_dl_dst:" + f.modDlDest)
                                        + Optional(f.tunDest != "", "set_field:" + f.tunDest + "->tun_dst"))
            == Progress(Rewrite(f, p), [])
  {
    var x, m := Progress(p, []), Optional(f.modDlDest != "", "mod_dl_dst:" + f.modDlDest);
    PerformFirst(f, p);
    PerformLast(x, m, f.tunDest != "", "set_field:" + f.tunDest + "->tun_dst");
    PerformSetTunDst(PerformAll(x, m), f.tunDest);
  }

  /** The rewrites and the output of a flow. */
  lemma PerformRewrites(f: FlowSpec, p: Packet)
    requires '>' !in f.tunDest
    ensures PerformAll(Progress(p, []), RewriteTokens(f))
            == Progress(Rewrite(f, p), if f.output != 0 then [Done(Sent(Numbered(f.output), Rewrite(f, p)))] else [])
  {
    var x := Progress(p, []);
    var t := Optional(f.modDlDest != "", "mod_dl_dst:" + f.modDlDest)
             + Optional(f.tunDest != "", "set_field:" + f.tunDest + "->tun_dst");
    PerformSecond(f, p);
    PerformLast(x, t, f.output != 0, "output:" + IntText(f.output));
    PerformOutput(Progress(Rewrite(f, p), []), f.output);
  }

  /** What becomes of a packet by a flow's actions in the order they are written: the
      rewritten packet is output, resubmitted and sent to the local port, as set. */
  function Effects(f: FlowSpec, p: Packet): seq<Next> {
    var q := Rewrite(f, p);
    (if f.output != 0 then [Done(Sent(Numbered(f.output), q))] else [])
    + (if f.resubmit != 0 then [Goto(f.resubmit, q)] else [])
    + (if f.local then [Done(Sent(LocalPort, q))] else [])
  }

  lemma PerformTwo(x: Progress, a: seq<string>, s: string, t: string)
    ensures PerformAll(x, a + ([s] + [t])) == Perform(Perform(PerformAll(x, a), s), t)
  {
    assert a + ([s] + [t]) == a + Optional(true, s) + Optional(true, t);
    PerformLast(x, a, true, s);
    PerformLast(x, a + Optional(true, s), true, t);
  }

  lemma PerformCut(x: Progress, a: seq<string>, n: int)
    ensures PerformAll(x, a + (["resubmit("] + [IntText(n) + ")"]))
            == Progress(PerformAll(x, a).packet, PerformAll(x, a).effects + [Goto(n, PerformAll(x, a).packet)])
  {
    PerformTwo(x, a, "resubmit(", IntText(n) + ")");
    PerformOpening(PerformAll(x, a));
    PerformGoto(PerformAll(x, a), n);
  }

  lemma PerformPieces(f: FlowSpec, p: Packet)
    requires '>' !in f.tunDest
    ensures PerformAll(Progress(p, []), ActionPieces(f)).effects == Effects(f, p)
  {
    var x, r := Progress(p, []), RewriteTokens(f);
    var u := r + (if f.resubmit != 0 then ["resubmit("] + [IntText(f.resubmit) + ")"] else []);
    PerformRewrites(f, p);
    PerformCut(x, r, f.resubmit);
    assert r + [] == r;
    PerformLast(x, u, f.drop, "drop");
    PerformDrop(PerformAll(x, u));
    PerformLocal(PerformAll(x, u));
    PerformLast(x, u + Optional(f.drop, "drop"), f.local, "local");
  }

  /** For a flow with a single action that is the one thing that becomes of the packet. */
  lemma SingleEffect(f: FlowSpec, p: Packet)
    requires SingleAction(f)
    ensures Effects(f, p) == if ActPlain(f, p) == Done(Dropped) then [] else [ActPlain(f, p)]
  {
  }

  // ----- The actions of responders

  lemma SourceAndTarget(source: string, target: string)
    requires '>' !in source
    ensures var a := source + "[]" + "->" + target + "[]";
            Register(Source(a)) == source && Register(Target(a)) == target
  {
    var a := source + "[]" + "->" + target + "[]";
    assert a == (source + "[]") + "->" + (target + "[]");
    ArrowOf(source + "[]", target + "[]");
    RegisterOf(source);
    RegisterOf(target);
  }

  lemma NoEffect(k: string, a: string, p: Packet)
    requires ':' !in k && k != "output"
    ensures Keyword(k + ":" + a) == k && Argument(k + ":" + a) == a && k != k + ":" + a
    ensures Effect(k + ":" + a, p) == []
  {
    KeywordOf(k, a);
    assert |k + ":" + a| > |k|;
  }

  lemma PerformMove(x: Progress, source: string, target: string)
    requires '>' !in source
    ensures Perform(x, "move" + ":" + (source + "[]" + "->" + target + "[]"))
            == Progress(Move(source, target, x.packet), x.effects)
  {
    var a := source + "[]" + "->" + target + "[]";
    NoEffect("move", a, x.packet);
    SourceAndTarget(source, target);
    assert x.effects + [] == x.effects;
  }

  lemma FieldNames()
    ensures FieldOf("NXM_OF_ETH_SRC") == Some(EthSrc)
    ensures FieldOf("NXM_OF_ETH_DST") == Some(EthDst)
    ensures FieldOf("NXM_OF_ARP_OP") == Some(ArpOp)
    ensures FieldOf("NXM_NX_ARP_SHA") == Some(ArpSha)
    ensures FieldOf("NXM_NX_ARP_THA") == Some(ArpTha)
    ensures FieldOf("NXM_OF_ARP_SPA") == Some(ArpSpa)
    ensures FieldOf("NXM_OF_ARP_TPA") == Some(ArpTpa)
  {
  }

  function MoveText(source: string, target: string): string {
    "move" + ":" + (source + "[]" + "->" + target + "[]")
  }

  /** The text moves one field to another. */
  ghost predicate IsMove(text: string, from: Field, to: Field) {
    exists source, target ::
      && text == MoveText(source, target) && '>' !in source
      && FieldOf(source) == Some(from) && FieldOf(target) == Some(to)
  }

  lemma SourceNames()
    ensures '>' !in "NXM_OF_ETH_SRC" && '>' !in "NXM_NX_ARP_SHA"
    ensures '>' !in "NXM_OF_ARP_SPA" && '>' !in "NXM_OF_ARP_TPA"
  {
  }

  lemma MoveIs(text: string, source: string, target: string, from: Field, to: Field)
    requires text == MoveText(source, target) && '>' !in source
    requires FieldOf(source) == Some(from) && FieldOf(target) == Some(to)
    ensures IsMove(text, from, to)
  {
  }

  lemma EthText()
    ensures ETH_MOVE == MoveText("NXM_OF_ETH_SRC", "NXM_OF_ETH_DST")
  {
  }

  lemma EthIsMove()
    ensures IsMove(ETH_MOVE, EthSrc, EthDst)
  {
    EthText();
    FieldNames();
    SourceNames();
    MoveIs(ETH_MOVE, "NXM_OF_ETH_SRC", "NXM_OF_ETH_DST", EthSrc, EthDst);
  }

  lemma ShaText()
    ensures SHA_MOVE == MoveText("NXM_NX_ARP_SHA", "NXM_NX_ARP_THA")
  {
  }

  lemma ShaIsMove()
    ensures IsMove(SHA_MOVE, ArpSha, ArpTha)
  {
    ShaText();
    FieldNames();
    SourceNames();
    MoveIs(SHA_MOVE, "NXM_NX_ARP_SHA", "NXM_NX_ARP_THA", ArpSha, ArpTha);
  }

  lemma SpaText()
    ensures SPA_MOVE == MoveText("NXM_OF_ARP_SPA", "NXM_OF_ARP_TPA")
  {
  }

  lemma SpaIsMove()
    ensures IsMove(SPA_MOVE, ArpSpa, ArpTpa)
  {
    SpaText();
    FieldNames();
    SourceNames();
    MoveIs(SPA_MOVE, "NXM_OF_ARP_SPA", "NXM_OF_ARP_TPA", ArpSpa, ArpTpa);
  }

  lemma TpaText()
    ensures TPA_MOVE == MoveText("NXM_OF_ARP_TPA", "NXM_OF_ARP_SPA")
  {
  }

  lemma TpaIsMove()
    ensures IsMove(TPA_MOVE, ArpTpa, ArpSpa)
  {
    TpaText();
    FieldNames();
    SourceNames();
    MoveIs(TPA_MOVE, "NXM_OF_ARP_TPA", "NXM_OF_ARP_SPA", ArpTpa, ArpSpa);
  }

  lemma PerformIsMove(x: Progress, text: string, from: Field, to: Field)
    requires IsMove(text, from, to) && Get(from, x.packet).Some?
    ensures Perform(x, text) == Progress(Put(to, Get(from, x.packet).value, x.packet), x.effects)
  {
    var source, target :|
      && text == MoveText(source, target) && '>' !in source
      && FieldOf(source) == Some(from) && FieldOf(target) == Some(to);
    PerformMove(x, source, target);
  }

  lemma OpLoadText()
    ensures OP_LOAD == "load" + ":" + ("0x2" + "->" + "NXM_OF_ARP_OP" + "[]")
  {
  }

  lemma PerformLoadText(x: Progress, text: string, number: string, target: string, n: int, to: Field)
    requires text == "load" + ":" + (number + "->" + target + "[]") && '>' !in number
    requires ReadHex(number) == Some(n) && FieldOf(target) == Some(to)
    ensures Perform(x, text) == Progress(Put(to, Number(n), x.packet), x.effects)
  {
    var a := number + "->" + target + "[]";
    NoEffect("load", a, x.packet);
    assert a == number + "->" + (target + "[]");
    ArrowOf(number, target + "[]");
    RegisterOf(target);
    assert x.effects + [] == x.effects;
  }

  lemma ReadHexTwo()
    ensures ReadHex("0x2") == Some(2) && '>' !in "0x2"
  {
  }

  lemma PerformOpLoad(x: Progress)
    requires x.packet.payload.ARP?
    ensures Perform(x, OP_LOAD) == Progress(x.packet.(payload := x.packet.payload.(op := 2)), x.effects)
  {
    OpLoadText();
    FieldNames();
    ReadHexTwo();
    PerformLoadText(x, OP_LOAD, "0x2", "NXM_OF_ARP_OP", 2, ArpOp);
  }

  lemma PerformModDlSrc(x: Progress, mac: string)
    ensures Perform(x, "mod_dl_src:" + mac) == Progress(x.packet.(dlSrc := mac), x.effects)
  {
    assert "mod_dl_src:" + mac == "mod_dl_src" + ":" + mac;
    NoEffect("mod_dl_src", mac, x.packet);
    assert x.effects + [] == x.effects;
  }

  lemma PerformSetField(x: Progress, text: string, field: string)
    requires '>' !in text
    ensures Perform(x, "set_field" + ":" + (text + "->" + field)) == Progress(SetField(field, text, x.packet), x.effects)
  {
    NoEffect("set_field", text + "->" + field, x.packet);
    ArrowOf(text, field);
    assert x.effects + [] == x.effects;
  }

  lemma SetFieldTexts(text: string)
    ensures "set_field:" + text + "->arp_sha" == "set_field" + ":" + (text + "->" + "arp_sha")
    ensures "set_field:" + text + "->arp_spa" == "set_field" + ":" + (text + "->" + "arp_spa")
  {
  }

  lemma PerformEthMove(x: Progress, text: string)
    requires IsMove(text, EthSrc, EthDst)
    ensures Perform(x, text) == Progress(x.packet.(dlDst := x.packet.dlSrc), x.effects)
  {
    PerformIsMove(x, text, EthSrc, EthDst);
  }

  lemma PerformShaMove(x: Progress, text: string)
    requires IsMove(text, ArpSha, ArpTha) && x.packet.payload.ARP?
    ensures Perform(x, text) == Progress(x.packet.(payload := x.packet.payload.(tha := x.packet.payload.sha)), x.effects)
  {
    PerformIsMove(x, text, ArpSha, ArpTha);
  }

  lemma PerformSpaMove(x: Progress, text: string)
    requires IsMove(text, ArpSpa, ArpTpa) && x.packet.payload.ARP?
    ensures Perform(x, text) == Progress(x.packet.(payload := x.packet.payload.(tpa := x.packet.payload.spa)), x.effects)
  {
    PerformIsMove(x, text, ArpSpa, ArpTpa);
  }

  lemma PerformTpaMove(x: Progress, text: string)
    requires IsMove(text, ArpTpa, ArpSpa) && x.packet.payload.ARP?
    ensures Perform(x, text) == Progress(x.packet.(payload := x.packet.payload.(spa := x.packet.payload.tpa)), x.effects)
  {
    PerformIsMove(x, text, ArpTpa, ArpSpa);
  }

  /** An action that sets a text, which must not contain an arrow. */
  predicate Arrowless(a: ArpAction) {
    match a
    case SetSha(mac) => '>' !in mac
    case SetSpa(ip) => '>' !in ip
    case _ => true
  }

  /** Every action's text does to the packet what the action does. */
  lemma PerformArp(x: Progress, a: ArpAction)
    requires x.packet.payload.ARP? && Arrowless(a)
    ensures Perform(x, a.Text())
            == Progress(ActArp(a, x.packet), x.effects + if a.InPort? then [Done(Sent(IngressPort, x.packet))] else [])
  {
    match a
    case ModDlSrc(mac) =>
      PerformModDlSrc(x, mac);
    case LoadReplyOp =>
      PerformOpLoad(x);
    case SetSha(mac) =>
      SetFieldTexts(mac);
      PerformSetField(x, mac, "arp_sha");
    case SetSpa(ip) =>
      SetFieldTexts(ip);
      PerformSetField(x, ip, "arp_spa");
    case InPort =>
      PerformInPort(x);
    case MoveEthSrcToEthDst =>
      EthIsMove();
      PerformEthMove(x, a.Text());
    case MoveShaToTha =>
      ShaIsMove();
      PerformShaMove(x, a.Text());
    case MoveSpaToTpa =>
      SpaIsMove();
      PerformSpaMove(x, a.Text());
    case MoveTpaToSpa =>
      TpaIsMove();
      PerformTpaMove(x, a.Text());
  }

  // ----- Whole action lists

  lemma {:induction false} ActAllLast(actions: seq<ArpAction>, last: ArpAction, p: Packet)
    requires p.payload.ARP?
    ensures ActAll(actions + [last], p) == ActArp(last, ActAll(actions, p))
  {
    if actions == [] {
      assert ([] + [last])[1..] == [];
    } else {
      ActAllLast(actions[1..], last, ActArp(actions[0], p));
      assert (actions + [last])[1..] == actions[1..] + [last];
    }
  }

  lemma TextsLast(init: seq<ArpAction>, last: ArpAction)
    ensures Map(ActionText(), init + [last]) == Map(ActionText(), init) + Optional(true, last.Text())
  {
    assert (init + [last])[..|init|] == init;
  }

  lemma PerformOneMore(init: seq<ArpAction>, last: ArpAction, p: Packet)
    requires p.payload.ARP? && Arrowless(last) && !last.InPort?
    requires PerformAll(Progress(p, []), Map(ActionText(), init)) == Progress(ActAll(init, p), [])
    ensures PerformAll(Progress(p, []), Map(ActionText(), init + [last])) == Progress(ActAll(init + [last], p), [])
  {
    ActAllLast(init, last, p);
    TextsLast(init, last);
    PerformLast(Progress(p, []), Map(ActionText(), init), true, last.Text());
    PerformArp(Progress(ActAll(init, p), []), last);
  }

  lemma {:induction false} PerformTexts(actions: seq<ArpAction>, p: Packet)
    requires p.payload.ARP? && forall a :: a in actions ==> Arrowless(a) && !a.InPort?
    ensures PerformAll(Progress(p, []), Map(ActionText(), actions)) == Progress(ActAll(actions, p), [])
  {
    if actions != [] {
      var init, last := actions[..|actions| - 1], actions[|actions| - 1];
      assert actions == init + [last];
      PerformTexts(init, p);
      PerformOneMore(init, last, p);
    }
  }

  /** All rewrites come first, and the packet then leaves through its input port. */
  predicate EndsInPort(actions: seq<ArpAction>) {
    && actions != [] && actions[|actions| - 1].InPort?
    && forall a :: a in actions[..|actions| - 1] ==> Arrowless(a) && !a.InPort?
  }

  lemma PerformAtLast(init: seq<ArpAction>, last: ArpAction, p: Packet)
    requires p.payload.ARP? && last.InPort? && forall a :: a in init ==> Arrowless(a) && !a.InPort?
    ensures PerformAll(Progress(p, []), Map(ActionText(), init + [last])).effects
            == [Done(Sent(IngressPort, ActAll(init + [last], p)))]
  {
    PerformTexts(init, p);
    ActAllLast(init, last, p);
    TextsLast(init, last);
    PerformLast(Progress(p, []), Map(ActionText(), init), true, last.Text());
    PerformArp(Progress(ActAll(init, p), []), last);
  }

  lemma PerformResponder(actions: seq<ArpAction>, p: Packet)
    requires p.payload.ARP? && EndsInPort(actions)
    ensures PerformAll(Progress(p, []), Map(ActionText(), actions)).effects
            == [Done(Sent(IngressPort, ActAll(actions, p)))]
  {
    var init, last := actions[..|actions| - 1], actions[|actions| - 1];
    assert actions == init + [last];
    PerformAtLast(init, last, p);
  }

  lemma ListOfLine(tokens: seq<string>, head: seq<string>, actions: string)
    requires tokens == head + ["actions=" + actions]
    ensures "actions=" <= tokens[|tokens| - 1] && After(tokens[|tokens| - 1], "actions=") == actions
  {
  }

  lemma NoActions(x: Progress)
    ensures PerformAll(x, [""]) == x
  {
    PerformBare(x, "");
    assert [""][..0] == [] && x.effects + [] == x.effects;
  }

  /** The line of a built flow does what the flow says, action by action. */
  lemma ExecuteFlow(f: FlowSpec, p: Packet)
    requires WellFormed(f) && '>' !in f.tunDest
    ensures Execute(Render(f), p) == Effects(f, p)
  {
    LineSplits(f);
    ListOfLine(LineTokens(f), MatchTokens(f), Commas(ActionTokens(f)));
    CommasOfPieces(f);
    PerformPieces(f, p);
    PiecesHaveNoComma(f);
    if ActionPieces(f) == [] {
      assert Split("", ',') == [""];
      NoActions(Progress(p, []));
    } else {
      SplitJoin(ActionPieces(f), ',');
    }
  }

  /** And so does the line of a responder. */
  lemma ExecuteResponder(r: Responder, p: Packet)
    requires LegibleEntry(Arp(r)) && p.payload.ARP? && EndsInPort(r.actions)
    ensures Execute(r.Text(), p) == [Done(Sent(IngressPort, ActAll(r.actions, p)))]
  {
    var texts := Map(ActionText(), r.actions);
    ResponderTextIsJoin(r);
    ResponderTokensAreFree(r, ' ');
    SplitJoin(ResponderTokens(r), ' ');
    ListOfLine(ResponderTokens(r), ResponderTokens(r)[..4], Commas(texts));
    ActionTextsAreFree(r.actions, ',');
    SplitJoin(texts, ',');
    PerformResponder(r.actions, p);
  }

  // ----- Whole entries

  /** No text that is set contains an arrow, no flow does two things with a packet, and
      responders answer last. */
  predicate Executable(e: Entry) {
    && LegibleEntry(e)
    && match e
       case Plain(f) => SingleAction(f) && '>' !in f.tunDest
       case Arp(r) => EndsInPort(r.actions)
  }

  /** Carrying out an entry's text does exactly what the entry does. */
  lemma ExecuteEntry(e: Entry, p: Packet)
    requires Executable(e) && Matches(e, p)
    ensures Execute(e.Text(), p) == if Act(e, p) == Done(Dropped) then [] else [Act(e, p)]
  {
    match e
    case Plain(f) =>
      ExecuteFlow(f, p);
      SingleEffect(f, p);
    case Arp(r) =>
      ExecuteResponder(r, p);
      assert r.actions[|r.actions| - 1] in r.actions;
  }

  // ----- Runs through installed lines

  function Entries(lines: seq<string>): seq<Entry> {
    Map(ReadEntry, lines)
  }

  /** The one thing that becomes of a packet: with no effect it is dropped. */
  function Only(effects: seq<Next>): Option<Next> {
    if effects == [] then Some(Done(Dropped)) else if |effects| == 1 then Some(effects[0]) else None
  }

  /** `trace` is the sequence of lines selected for `p` from table `t` on, and `o` is what
      becomes of the packet when their actions are carried out. Matches and priorities are
      read from the lines. A line that does several things may have any outcome. */
  ghost predicate LineRuns(lines: seq<string>, t: int, p: Packet, trace: seq<string>, o: Outcome)
    decreases |trace|
  {
    if trace == [] then Misses(Entries(lines), t, p) && o == Dropped
    else
      && trace[0] in lines && Selects(Entries(lines), t, p, ReadEntry(trace[0]))
      && match Only(Execute(trace[0], p))
         case None => |trace| == 1
         case Some(Done(o')) => |trace| == 1 && o == o'
         case Some(Goto(t', p')) => LineRuns(lines, t', p', trace[1..], o)
  }

  lemma ExecuteOnly(e: Entry, p: Packet)
    requires Executable(e) && Matches(e, p)
    ensures ReadEntry(e.Text()) == e && Only(Execute(e.Text(), p)) == Some(Act(e, p))
  {
    ExecuteEntry(e, p);
    EntryIsReadable(e);
  }

  ghost predicate AllExecutable(es: seq<Entry>) {
    forall e :: e in es ==> Executable(e)
  }

  lemma EntriesOfLines(es: seq<Entry>)
    requires AllExecutable(es)
    ensures Entries(Lines(es)) == es
  {
    forall i | 0 <= i < |es| ensures ReadEntry(Lines(es)[i]) == es[i] {
      assert es[i] in es;
      EntryIsReadable(es[i]);
    }
  }

  lemma LineIsOf(es: seq<Entry>, line: string) returns (e: Entry)
    requires AllExecutable(es) && line in Lines(es)
    ensures e in es && line == e.Text() && ReadEntry(line) == e
  {
    var i :| 0 <= i < |es| && Lines(es)[i] == line;
    e := es[i];
    assert e in es;
    EntryIsReadable(e);
  }

  /** A line of entries that is selected does what its entry does. */
  lemma LineActs(es: seq<Entry>, t: int, p: Packet, line: string)
    requires AllExecutable(es) && line in Lines(es) && Selects(es, t, p, ReadEntry(line))
    ensures Only(Execute(line, p)) == Some(Act(ReadEntry(line), p))
  {
    var e := LineIsOf(es, line);
    ExecuteOnly(e, p);
  }

  lemma EntryActs(es: seq<Entry>, t: int, p: Packet, e: Entry)
    requires AllExecutable(es) && Selects(es, t, p, e)
    ensures e.Text() in Lines(es) && ReadEntry(e.Text()) == e
    ensures Only(Execute(e.Text(), p)) == Some(Act(e, p))
  {
    ExecuteOnly(e, p);
    var i :| 0 <= i < |es| && es[i] == e;
    assert Lines(es)[i] == e.Text();
  }

  lemma EntriesTail(trace: seq<string>)
    requires trace != []
    ensures Entries(trace)[0] == ReadEntry(trace[0]) && Entries(trace)[1..] == Entries(trace[1..])
  {
  }

  lemma LinesTail(trace: seq<Entry>)
    requires trace != []
    ensures Lines(trace)[0] == trace[0].Text() && Lines(trace)[1..] == Lines(trace[1..])
  {
  }

  /** A run through the lines of entries is a run through the entries, and conversely. */
  lemma {:induction false} LineRunIsRun(es: seq<Entry>, t: int, p: Packet, trace: seq<string>, o: Outcome)
    requires AllExecutable(es) && LineRuns(Lines(es), t, p, trace, o)
    ensures Runs(es, t, p, Entries(trace), o)
    decreases |trace|
  {
    EntriesOfLines(es);
    if trace != [] {
      EntriesTail(trace);
      LineActs(es, t, p, trace[0]);
      var next := Act(ReadEntry(trace[0]), p);
      if next.Goto? {
        LineRunIsRun(es, next.table, next.packet, trace[1..], o);
      }
    }
  }

  lemma {:induction false} RunIsLineRun(es: seq<Entry>, t: int, p: Packet, trace: seq<Entry>, o: Outcome)
    requires AllExecutable(es) && Runs(es, t, p, trace, o)
    ensures LineRuns(Lines(es), t, p, Lines(trace), o)
    decreases |trace|
  {
    EntriesOfLines(es);
    if trace != [] {
      LinesTail(trace);
      EntryActs(es, t, p, trace[0]);
      var next := Act(trace[0], p);
      if next.Goto? {
        RunIsLineRun(es, next.table, next.packet, trace[1..], o);
      }
    }
  }
}
