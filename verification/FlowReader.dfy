/** A reader for the lines that `Flow.String` writes, showing that the text form
    loses nothing: every field, including the elided ones, can be read back. */
module FlowReader {
  import opened Text
  import opened Flows

  /** The text after `prefix`. */
  function After(s: string, prefix: string): string
    requires prefix <= s
  {
    s[|prefix|..]
  }

  function ReadField(s: string, prefix: string): int
    requires prefix <= s
  {
    match ReadInt(After(s, prefix)) case Some(n) => n case None => 0
  }

  /** One comma-separated piece of an action list. The comma inside `resubmit(,N)`
      splits that action into two pieces, of which the second holds the number. */
  function ReadAction(f: FlowSpec, s: string): FlowSpec {
    if "mod_dl_dst:" <= s then f.(modDlDest := After(s, "mod_dl_dst:"))
    else if "set_field:" <= s && |s| >= 19 then f.(tunDest := s[10..|s| - 9])
    else if "output:" <= s then f.(output := ReadField(s, "output:"))
    else if s == "drop" then f.(drop := true)
    else if s == "local" then f.(local := true)
    else if s != [] && s[|s| - 1] == ')' then
      f.(resubmit := match ReadInt(s[..|s| - 1]) case Some(n) => n case None => 0)
    else f
  }

  function ReadActions(f: FlowSpec, pieces: seq<string>): FlowSpec {
    if pieces == [] then f
    else ReadAction(ReadActions(f, pieces[..|pieces| - 1]), pieces[|pieces| - 1])
  }

  /** One blank-separated token of a line. */
  function ReadToken(f: FlowSpec, s: string): FlowSpec {
    if "table=" <= s then f.(table := ReadField(s, "table="))
    else if "priority=" <= s then f.(priority := ReadField(s, "priority="))
    else if "nw_dst=" <= s then f.(ipDest := After(s, "nw_dst="))
    else if "nw_src=" <= s then f.(ipSrc := After(s, "nw_src="))
    else if "arp_tpa=" <= s then f.(arpDest := After(s, "arp_tpa="))
    else if "arp_spa=" <= s then f.(arpSrc := After(s, "arp_spa="))
    else if "tcp_dst=" <= s then f.(tcpDestPort := ReadField(s, "tcp_dst="))
    else if "tcp_src=" <= s then f.(tcpSrcPort := ReadField(s, "tcp_src="))
    else if "udp_dst=" <= s then f.(udpDestPort := ReadField(s, "udp_dst="))
    else if "udp_src=" <= s then f.(udpSrcPort := ReadField(s, "udp_src="))
    else if "actions=" <= s then ReadActions(f, Split(After(s, "actions="), ','))
    else f.(protocol := s)
  }

  function ReadTokens(f: FlowSpec, tokens: seq<string>): FlowSpec {
    if tokens == [] then f
    else ReadToken(ReadTokens(f, tokens[..|tokens| - 1]), tokens[|tokens| - 1])
  }

  function ReadFlow(line: string): FlowSpec {
    ReadTokens(BLANK, Split(line, ' '))
  }

  // ----- Well-formed fields

  /** Free of the characters that separate tokens, actions and lines. */
  predicate Plaintext(s: string) {
    ' ' !in s && ',' !in s && '\n' !in s
  }

  predicate WellFormed(f: FlowSpec) {
    && Plaintext(f.protocol) && '=' !in f.protocol
    && Plaintext(f.ipDest) && Plaintext(f.ipSrc) && Plaintext(f.arpDest) && Plaintext(f.arpSrc)
    && Plaintext(f.tunDest) && Plaintext(f.modDlDest)
  }

  // ----- Round trip

  lemma ReadActionsLast(f: FlowSpec, a: seq<string>, present: bool, token: string)
    ensures ReadActions(f, a + Optional(present, token))
            == if present then ReadAction(ReadActions(f, a), token) else ReadActions(f, a)
  {
    if present {
      assert (a + [token])[..|a + [token]| - 1] == a;
    } else {
      assert a + [] == a;
    }
  }

  lemma ReadTokensLast(f: FlowSpec, a: seq<string>, present: bool, token: string)
    ensures ReadTokens(f, a + Optional(present, token))
            == if present then ReadToken(ReadTokens(f, a), token) else ReadTokens(f, a)
  {
    if present {
      assert (a + [token])[..|a + [token]| - 1] == a;
    } else {
      assert a + [] == a;
    }
  }

  lemma ReadFieldText(prefix: string, n: int)
    ensures ReadField(prefix + IntText(n), prefix) == n
  {
    assert After(prefix + IntText(n), prefix) == IntText(n);
    ReadIntText(n);
  }

  /** A text that differs from `prefix` at some position does not start with it. */
  lemma OtherStart(prefix: string, s: string, i: nat)
    requires i < |prefix| && i < |s| && prefix[i] != s[i]
    ensures !(prefix <= s) && prefix != s
  {
  }

  /** The number of `resubmit(,N)`, read from the piece after its comma. */
  lemma ReadResubmit(f: FlowSpec, n: int)
    ensures ReadAction(f, IntText(n) + ")") == f.(resubmit := n)
  {
    IntTextChars(n);
    var s := IntText(n) + ")";
    assert s[0] in IntText(n);
    OtherStart("mod_dl_dst:", s, 0);
    OtherStart("set_field:", s, 0);
    OtherStart("output:", s, 0);
    OtherStart("drop", s, 0);
    OtherStart("local", s, 0);
    assert s[..|s| - 1] == IntText(n);
    ReadIntText(n);
  }

  // ----- One token at a time

  lemma ReadNumberTokens(f: FlowSpec, n: int)
    ensures ReadToken(f, "table=" + IntText(n)) == f.(table := n)
    ensures ReadToken(f, "priority=" + IntText(n)) == f.(priority := n)
  {
    ReadFieldText("table=", n);
    ReadFieldText("priority=", n);
    OtherStart("table=", "priority=" + IntText(n), 0);
  }

  lemma NotLeading(s: string)
    requires s != [] && s[0] != 't' && s[0] != 'p'
    ensures !("table=" <= s) && !("priority=" <= s)
  {
    OtherStart("table=", s, 0);
    OtherStart("priority=", s, 0);
  }

  lemma ReadIPTokens(f: FlowSpec, x: string)
    ensures ReadToken(f, "nw_dst=" + x) == f.(ipDest := x)
    ensures ReadToken(f, "nw_src=" + x) == f.(ipSrc := x)
  {
    NotLeading("nw_dst=" + x);
    NotLeading("nw_src=" + x);
    OtherStart("nw_dst=", "nw_src=" + x, 3);
    assert After("nw_dst=" + x, "nw_dst=") == x;
    assert After("nw_src=" + x, "nw_src=") == x;
  }

  lemma NotIP(s: string)
    requires s != [] && s[0] != 'n'
    ensures !("nw_dst=" <= s) && !("nw_src=" <= s)
  {
    OtherStart("nw_dst=", s, 0);
    OtherStart("nw_src=", s, 0);
  }

  lemma ReadArpTokens(f: FlowSpec, x: string)
    ensures ReadToken(f, "arp_tpa=" + x) == f.(arpDest := x)
    ensures ReadToken(f, "arp_spa=" + x) == f.(arpSrc := x)
  {
    NotLeading("arp_tpa=" + x);
    NotLeading("arp_spa=" + x);
    NotIP("arp_tpa=" + x);
    NotIP("arp_spa=" + x);
    OtherStart("arp_tpa=", "arp_spa=" + x, 4);
    assert After("arp_tpa=" + x, "arp_tpa=") == x;
    assert After("arp_spa=" + x, "arp_spa=") == x;
  }

  lemma NotArp(s: string)
    requires s != [] && s[0] != 'a'
    ensures !("arp_tpa=" <= s) && !("arp_spa=" <= s)
  {
    OtherStart("arp_tpa=", s, 0);
    OtherStart("arp_spa=", s, 0);
  }

  lemma ReadTCPTokens(f: FlowSpec, n: int)
    ensures ReadToken(f, "tcp_dst=" + IntText(n)) == f.(tcpDestPort := n)
    ensures ReadToken(f, "tcp_src=" + IntText(n)) == f.(tcpSrcPort := n)
  {
    var d, s := "tcp_dst=" + IntText(n), "tcp_src=" + IntText(n);
    OtherStart("table=", d, 1);
    OtherStart("table=", s, 1);
    OtherStart("priority=", d, 0);
    OtherStart("priority=", s, 0);
    NotIP(d);
    NotIP(s);
    NotArp(d);
    NotArp(s);
    OtherStart("tcp_dst=", s, 4);
    ReadFieldText("tcp_dst=", n);
    ReadFieldText("tcp_src=", n);
  }

  lemma NotTCP(s: string)
    requires s != [] && s[0] != 't'
    ensures !("tcp_dst=" <= s) && !("tcp_src=" <= s)
  {
    OtherStart("tcp_dst=", s, 0);
    OtherStart("tcp_src=", s, 0);
  }

  lemma ReadUDPTokens(f: FlowSpec, n: int)
    ensures ReadToken(f, "udp_dst=" + IntText(n)) == f.(udpDestPort := n)
    ensures ReadToken(f, "udp_src=" + IntText(n)) == f.(udpSrcPort := n)
  {
    var d, s := "udp_dst=" + IntText(n), "udp_src=" + IntText(n);
    NotLeading(d);
    NotLeading(s);
    NotIP(d);
    NotIP(s);
    NotArp(d);
    NotArp(s);
    NotTCP(d);
    NotTCP(s);
    OtherStart("udp_dst=", s, 4);
    ReadFieldText("udp_dst=", n);
    ReadFieldText("udp_src=", n);
  }

  lemma ReadActionsToken(f: FlowSpec, x: string)
    ensures ReadToken(f, "actions=" + x) == ReadActions(f, Split(x, ','))
  {
    var s := "actions=" + x;
    NotLeading(s);
    NotIP(s);
    OtherStart("arp_tpa=", s, 1);
    OtherStart("arp_spa=", s, 1);
    NotTCP(s);
    OtherStart("udp_dst=", s, 0);
    OtherStart("udp_src=", s, 0);
    assert After(s, "actions=") == x;
  }

  lemma PrefixMember(prefix: string, s: string)
    requires prefix != [] && prefix <= s
    ensures prefix[|prefix| - 1] in s
  {
    assert s[|prefix| - 1] == prefix[|prefix| - 1];
  }

  /** A token without `=` starts with none of the keys. */
  lemma NoKey(key: string, s: string)
    requires key != [] && key[|key| - 1] == '=' && '=' !in s
    ensures !(key <= s)
  {
    if key <= s {
      PrefixMember(key, s);
    }
  }

  lemma ReadProtocolToken(f: FlowSpec, x: string)
    requires '=' !in x
    ensures ReadToken(f, x) == f.(protocol := x)
  {
    NoKey("table=", x);
    NoKey("priority=", x);
    NoKey("nw_dst=", x);
    NoKey("nw_src=", x);
    NoKey("arp_tpa=", x);
    NoKey("arp_spa=", x);
    NoKey("tcp_dst=", x);
    NoKey("tcp_src=", x);
    NoKey("udp_dst=", x);
    NoKey("udp_src=", x);
    NoKey("actions=", x);
  }

  // ----- Whole lists of tokens

  lemma ReadHead(f: FlowSpec)
    requires '=' !in f.protocol
    ensures ReadTokens(BLANK, HeadTokens(f))
            == BLANK.(table := f.table, priority := f.priority, protocol := f.protocol)
  {
    var t := ["table=" + IntText(f.table)];
    assert ReadTokens(BLANK, t) == BLANK.(table := f.table) by {
      assert ReadTokens(BLANK, t[..0]) == BLANK;
      ReadNumberTokens(BLANK, f.table);
    }
    ReadTokensLast(BLANK, t, true, "priority=" + IntText(f.priority));
    ReadNumberTokens(BLANK.(table := f.table), f.priority);
    ReadTokensLast(BLANK, t + ["priority=" + IntText(f.priority)], f.protocol != "", f.protocol);
    ReadProtocolToken(BLANK.(table := f.table, priority := f.priority), f.protocol);
  }

  lemma ReadIPPart(t: seq<string>, g: FlowSpec, f: FlowSpec)
    requires ReadTokens(BLANK, t) == g && g.ipDest == g.ipSrc == ""
    ensures ReadTokens(BLANK, AddIPTokens(t, f)) == g.(ipDest := f.ipDest, ipSrc := f.ipSrc)
  {
    ReadTokensLast(BLANK, t, f.ipDest != "", "nw_dst=" + f.ipDest);
    ReadIPTokens(g, f.ipDest);
    ReadTokensLast(BLANK, t + Optional(f.ipDest != "", "nw_dst=" + f.ipDest), f.ipSrc != "", "nw_src=" + f.ipSrc);
    ReadIPTokens(g.(ipDest := f.ipDest), f.ipSrc);
  }

  lemma ReadArpPart(t: seq<string>, g: FlowSpec, f: FlowSpec)
    requires ReadTokens(BLANK, t) == g && g.arpDest == g.arpSrc == ""
    ensures ReadTokens(BLANK, AddArpTokens(t, f)) == g.(arpDest := f.arpDest, arpSrc := f.arpSrc)
  {
    ReadTokensLast(BLANK, t, f.arpDest != "", "arp_tpa=" + f.arpDest);
    ReadArpTokens(g, f.arpDest);
    ReadTokensLast(BLANK, t + Optional(f.arpDest != "", "arp_tpa=" + f.arpDest),
                   f.arpSrc != "", "arp_spa=" + f.arpSrc);
    ReadArpTokens(g.(arpDest := f.arpDest), f.arpSrc);
  }

  lemma ReadTCPPart(t: seq<string>, g: FlowSpec, f: FlowSpec)
    requires ReadTokens(BLANK, t) == g && g.tcpDestPort == g.tcpSrcPort == 0
    ensures ReadTokens(BLANK, AddTCPTokens(t, f)) == g.(tcpDestPort := f.tcpDestPort, tcpSrcPort := f.tcpSrcPort)
  {
    ReadTokensLast(BLANK, t, f.tcpDestPort != 0, "tcp_dst=" + IntText(f.tcpDestPort));
    ReadTCPTokens(g, f.tcpDestPort);
    ReadTokensLast(BLANK, t + Optional(f.tcpDestPort != 0, "tcp_dst=" + IntText(f.tcpDestPort)),
                   f.tcpSrcPort != 0, "tcp_src=" + IntText(f.tcpSrcPort));
    ReadTCPTokens(g.(tcpDestPort := f.tcpDestPort), f.tcpSrcPort);
  }

  lemma ReadUDPPart(t: seq<string>, g: FlowSpec, f: FlowSpec)
    requires ReadTokens(BLANK, t) == g && g.udpDestPort == g.udpSrcPort == 0
    ensures ReadTokens(BLANK, AddUDPTokens(t, f)) == g.(udpDestPort := f.udpDestPort, udpSrcPort := f.udpSrcPort)
  {
    ReadTokensLast(BLANK, t, f.udpDestPort != 0, "udp_dst=" + IntText(f.udpDestPort));
    ReadUDPTokens(g, f.udpDestPort);
    ReadTokensLast(BLANK, t + Optional(f.udpDestPort != 0, "udp_dst=" + IntText(f.udpDestPort)),
                   f.udpSrcPort != 0, "udp_src=" + IntText(f.udpSrcPort));
    ReadUDPTokens(g.(udpDestPort := f.udpDestPort), f.udpSrcPort);
  }

  /** The match tokens give back every field but those of the actions. */
  lemma ReadMatchTokens(f: FlowSpec)
    requires '=' !in f.protocol
    ensures ReadTokens(BLANK, MatchTokens(f))
            == f.(tunDest := "", modDlDest := "", output := 0, resubmit := 0, drop := false, local := false)
  {
    var g := BLANK.(table := f.table, priority := f.priority, protocol := f.protocol);
    var t := HeadTokens(f);
    ReadHead(f);
    ReadIPPart(t, g, f);
    t, g := AddIPTokens(t, f), g.(ipDest := f.ipDest, ipSrc := f.ipSrc);
    ReadArpPart(t, g, f);
    t, g := AddArpTokens(t, f), g.(arpDest := f.arpDest, arpSrc := f.arpSrc);
    ReadTCPPart(t, g, f);
    t, g := AddTCPTokens(t, f), g.(tcpDestPort := f.tcpDestPort, tcpSrcPort := f.tcpSrcPort);
    ReadUDPPart(t, g, f);
  }

  // ----- Actions

  /** The texts between the commas of an action list: its tokens, with
      `resubmit(,N)` cut in two. */
  function ActionPieces(f: FlowSpec): seq<string> {
    RewriteTokens(f)
    + (if f.resubmit != 0 then ["resubmit("] + [IntText(f.resubmit) + ")"] else [])
    + Optional(f.drop, "drop")
    + Optional(f.local, "local")
  }

  lemma CommasLast(t: seq<string>, last: string)
    ensures Commas(t + [last]) == if t == [] then last else Commas(t) + "," + last
  {
    if t == [] {
      assert t + [last] == [last];
    } else {
      JoinLast(t, last, ',');
    }
  }

  lemma CommasAgree(t: seq<string>, u: seq<string>, present: bool, last: string)
    requires Commas(t) == Commas(u) && (t == [] <==> u == [])
    ensures Commas(t + Optional(present, last)) == Commas(u + Optional(present, last))
  {
    if present {
      CommasLast(t, last);
      CommasLast(u, last);
    } else {
      assert t + [] == t && u + [] == u;
    }
  }

  lemma CommasOfResubmit(r: seq<string>, n: string)
    ensures Commas(r + ["resubmit(," + n]) == Commas(r + ["resubmit("] + [n])
  {
    CommasLast(r, "resubmit(," + n);
    CommasLast(r, "resubmit(");
    CommasLast(r + ["resubmit("], n);
    assert "resubmit(," + n == "resubmit(" + "," + n;
  }

  lemma CommasOfTails(f: FlowSpec, t: seq<string>, u: seq<string>)
    requires Commas(t) == Commas(u) && (t == [] <==> u == [])
    ensures Commas(t + Optional(f.drop, "drop") + Optional(f.local, "local"))
            == Commas(u + Optional(f.drop, "drop") + Optional(f.local, "local"))
  {
    CommasAgree(t, u, f.drop, "drop");
    CommasAgree(t + Optional(f.drop, "drop"), u + Optional(f.drop, "drop"), f.local, "local");
  }

  lemma CommasOfCut(f: FlowSpec, r: seq<string>, number: string)
    ensures Commas(r + ["resubmit(," + number + ")"] + Optional(f.drop, "drop") + Optional(f.local, "local"))
            == Commas(r + (["resubmit("] + [number + ")"]) + Optional(f.drop, "drop") + Optional(f.local, "local"))
  {
    var n := number + ")";
    CommasOfResubmit(r, n);
    assert "resubmit(," + number + ")" == "resubmit(," + n;
    assert r + (["resubmit("] + [n]) == r + ["resubmit("] + [n];
    CommasOfTails(f, r + ["resubmit(," + n], r + (["resubmit("] + [n]));
  }

  /** Cutting `resubmit(,N)` in two at its comma does not change the joined text. */
  lemma CommasOfPieces(f: FlowSpec)
    ensures Commas(ActionTokens(f)) == Commas(ActionPieces(f))
  {
    if f.resubmit != 0 {
      CommasOfCut(f, RewriteTokens(f), IntText(f.resubmit));
    }
  }

  // ----- Texts free of a separator

  predicate Free(c: char, texts: seq<string>) {
    forall s :: s in texts ==> c !in s
  }

  lemma FreeAppend(c: char, a: seq<string>, b: seq<string>)
    requires Free(c, a) && Free(c, b)
    ensures Free(c, a + b)
  {
  }

  lemma FreeOptional(c: char, present: bool, key: string, value: string)
    requires c !in key && c !in value
    ensures Free(c, Optional(present, key + value))
  {
  }

  lemma KeysAreFree(c: char)
    requires c == ' ' || c == '\n'
    ensures c !in "table=" && c !in "priority=" && c !in "nw_dst=" && c !in "nw_src="
    ensures c !in "arp_tpa=" && c !in "arp_spa="
    ensures c !in "tcp_dst=" && c !in "tcp_src=" && c !in "udp_dst=" && c !in "udp_src="
  {
  }

  lemma ActionKeysAreFree(c: char)
    requires c == ' ' || c == ',' || c == '\n'
    ensures c !in "mod_dl_dst:" && c !in "set_field:" && c !in "->tun_dst" && c !in "output:"
    ensures c !in "resubmit(" && c !in ")" && c !in "drop" && c !in "local"
  {
  }

  lemma ResubmitIsFree(c: char)
    requires c == ' ' || c == '\n'
    ensures c !in "resubmit(," && c !in "actions="
  {
  }

  lemma NumbersAreFree(n: int, c: char)
    requires !IsDigit(c) && c != '-'
    ensures c !in IntText(n)
  {
    IntTextChars(n);
  }

  lemma RewritesAreFree(f: FlowSpec, c: char)
    requires c == ' ' || c == ',' || c == '\n'
    requires c !in f.modDlDest && c !in f.tunDest
    ensures Free(c, RewriteTokens(f))
  {
    ActionKeysAreFree(c);
    NumbersAreFree(f.output, c);
    FreeOptional(c, f.modDlDest != "", "mod_dl_dst:", f.modDlDest);
    FreeOptional(c, f.tunDest != "", "set_field:" + f.tunDest, "->tun_dst");
    FreeOptional(c, f.output != 0, "output:", IntText(f.output));
  }

  lemma PiecesHaveNoComma(f: FlowSpec)
    requires ',' !in f.modDlDest && ',' !in f.tunDest
    ensures Free(',', ActionPieces(f))
  {
    RewritesAreFree(f, ',');
    ActionKeysAreFree(',');
    NumbersAreFree(f.resubmit, ',');
    var n := IntText(f.resubmit) + ")";
    var u := if f.resubmit != 0 then ["resubmit("] + [n] else [];
    assert Free(',', u);
    FreeAppend(',', RewriteTokens(f), u);
    FreeAppend(',', RewriteTokens(f) + u, Optional(f.drop, "drop"));
    FreeAppend(',', RewriteTokens(f) + u + Optional(f.drop, "drop"), Optional(f.local, "local"));
  }

  lemma MatchTokensAreFree(f: FlowSpec, c: char)
    requires c == ' ' || c == '\n'
    requires c !in f.protocol && c !in f.ipDest && c !in f.ipSrc && c !in f.arpDest && c !in f.arpSrc
    ensures Free(c, MatchTokens(f))
  {
    KeysAreFree(c);
    NumbersAreFree(f.table, c);
    NumbersAreFree(f.priority, c);
    NumbersAreFree(f.tcpDestPort, c);
    NumbersAreFree(f.tcpSrcPort, c);
    NumbersAreFree(f.udpDestPort, c);
    NumbersAreFree(f.udpSrcPort, c);
    FreeOptional(c, f.ipDest != "", "nw_dst=", f.ipDest);
    FreeOptional(c, f.ipSrc != "", "nw_src=", f.ipSrc);
    FreeOptional(c, f.arpDest != "", "arp_tpa=", f.arpDest);
    FreeOptional(c, f.arpSrc != "", "arp_spa=", f.arpSrc);
    FreeOptional(c, f.tcpDestPort != 0, "tcp_dst=", IntText(f.tcpDestPort));
    FreeOptional(c, f.tcpSrcPort != 0, "tcp_src=", IntText(f.tcpSrcPort));
    FreeOptional(c, f.udpDestPort != 0, "udp_dst=", IntText(f.udpDestPort));
    FreeOptional(c, f.udpSrcPort != 0, "udp_src=", IntText(f.udpSrcPort));
    var t := HeadTokens(f);
    assert Free(c, t);
    t := AddIPTokens(t, f);
    assert Free(c, t);
    t := AddArpTokens(t, f);
    assert Free(c, t);
    t := AddTCPTokens(t, f);
    assert Free(c, t);
  }

  lemma ActionTokensAreFree(f: FlowSpec, c: char)
    requires c == ' ' || c == '\n'
    requires c !in f.modDlDest && c !in f.tunDest
    ensures c !in "actions=" + Commas(ActionTokens(f))
  {
    RewritesAreFree(f, c);
    ActionKeysAreFree(c);
    ResubmitIsFree(c);
    NumbersAreFree(f.resubmit, c);
    FreeOptional(c, f.resubmit != 0, "resubmit(," + IntText(f.resubmit), ")");
    assert Free(c, Optional(f.drop, "drop")) && Free(c, Optional(f.local, "local"));
    if ActionTokens(f) != [] {
      JoinFree(ActionTokens(f), ',', c);
    }
  }

  // ----- Reading the actions back

  lemma ReadRewriteTokens(g: FlowSpec, x: string, n: int)
    ensures ReadAction(g, "mod_dl_dst:" + x) == g.(modDlDest := x)
    ensures ReadAction(g, "set_field:" + x + "->tun_dst") == g.(tunDest := x)
    ensures ReadAction(g, "output:" + IntText(n)) == g.(output := n)
  {
    assert After("mod_dl_dst:" + x, "mod_dl_dst:") == x;
    var t, o := "set_field:" + x + "->tun_dst", "output:" + IntText(n);
    OtherStart("mod_dl_dst:", t, 0);
    assert t[10..|t| - 9] == x;
    OtherStart("mod_dl_dst:", o, 0);
    OtherStart("set_field:", o, 0);
    ReadFieldText("output:", n);
  }

  lemma ReadRewrites(f: FlowSpec, g: FlowSpec)
    requires g.modDlDest == g.tunDest == "" && g.output == 0
    ensures ReadActions(g, RewriteTokens(f))
            == g.(modDlDest := f.modDlDest, tunDest := f.tunDest, output := f.output)
  {
    var m := Optional(f.modDlDest != "", "mod_dl_dst:" + f.modDlDest);
    ReadActionsLast(g, [], f.modDlDest != "", "mod_dl_dst:" + f.modDlDest);
    assert [] + m == m;
    ReadRewriteTokens(g, f.modDlDest, f.output);
    var g1 := g.(modDlDest := f.modDlDest);
    ReadActionsLast(g, m, f.tunDest != "", "set_field:" + f.tunDest + "->tun_dst");
    ReadRewriteTokens(g1, f.tunDest, f.output);
    var g2 := g1.(tunDest := f.tunDest);
    ReadActionsLast(g, m + Optional(f.tunDest != "", "set_field:" + f.tunDest + "->tun_dst"),
                    f.output != 0, "output:" + IntText(f.output));
    ReadRewriteTokens(g2, "", f.output);
  }

  lemma ReadKeywords(g: FlowSpec)
    ensures ReadAction(g, "resubmit(") == g
    ensures ReadAction(g, "drop") == g.(drop := true)
    ensures ReadAction(g, "local") == g.(local := true)
  {
    OtherStart("mod_dl_dst:", "resubmit(", 0);
    OtherStart("set_field:", "resubmit(", 0);
    OtherStart("output:", "resubmit(", 0);
    OtherStart("drop", "resubmit(", 0);
    OtherStart("local", "resubmit(", 0);
    assert "resubmit("[8] == '(';
    OtherStart("mod_dl_dst:", "drop", 0);
    OtherStart("set_field:", "drop", 0);
    OtherStart("output:", "drop", 0);
    OtherStart("mod_dl_dst:", "local", 0);
    OtherStart("set_field:", "local", 0);
    OtherStart("output:", "local", 0);
    OtherStart("drop", "local", 0);
  }

  lemma ReadPieces(f: FlowSpec, g: FlowSpec)
    requires g.modDlDest == g.tunDest == "" && g.output == g.resubmit == 0 && !g.drop && !g.local
    ensures ReadActions(g, ActionPieces(f))
            == g.(modDlDest := f.modDlDest, tunDest := f.tunDest, output := f.output,
                  resubmit := f.resubmit, drop := f.drop, local := f.local)
  {
    var t, n := RewriteTokens(f), IntText(f.resubmit) + ")";
    var u := if f.resubmit != 0 then ["resubmit("] + [n] else [];
    var g1 := g.(modDlDest := f.modDlDest, tunDest := f.tunDest, output := f.output);
    ReadRewrites(f, g);
    ReadActionsLast(g, t, true, "resubmit(");
    ReadActionsLast(g, t + ["resubmit("], true, n);
    ReadKeywords(g1);
    ReadResubmit(g1, f.resubmit);
    assert t + ["resubmit("] + [n] == t + (["resubmit("] + [n]);
    assert t + [] == t;
    var g2 := g1.(resubmit := f.resubmit);
    assert ReadActions(g, t + u) == g2;
    ReadActionsLast(g, t + u, f.drop, "drop");
    ReadKeywords(g2);
    ReadActionsLast(g, t + u + Optional(f.drop, "drop"), f.local, "local");
    ReadKeywords(g2.(drop := f.drop));
  }

  lemma ReadActionList(f: FlowSpec, g: FlowSpec)
    requires ',' !in f.modDlDest && ',' !in f.tunDest
    requires g.modDlDest == g.tunDest == "" && g.output == g.resubmit == 0 && !g.drop && !g.local
    ensures ReadActions(g, Split(Commas(ActionTokens(f)), ','))
            == g.(modDlDest := f.modDlDest, tunDest := f.tunDest, output := f.output,
                  resubmit := f.resubmit, drop := f.drop, local := f.local)
  {
    CommasOfPieces(f);
    ReadPieces(f, g);
    if ActionPieces(f) == [] {
      assert Split("", ',') == [""];
      assert ReadActions(g, [""][..0]) == g;
      assert ReadAction(g, "") == g;
    } else {
      PiecesHaveNoComma(f);
      SplitJoin(ActionPieces(f), ',');
    }
  }

  // ----- Lines

  /** The blank-separated tokens of a line. */
  function LineTokens(f: FlowSpec): seq<string> {
    MatchTokens(f) + ["actions=" + Commas(ActionTokens(f))]
  }

  lemma LineSplits(f: FlowSpec)
    requires WellFormed(f)
    ensures Split(Render(f), ' ') == LineTokens(f)
  {
    MatchTokensAreFree(f, ' ');
    ActionTokensAreFree(f, ' ');
    SplitJoin(LineTokens(f), ' ');
  }

  /** A line reads back as the flow it was written from. */
  lemma RenderIsReadable(f: FlowSpec)
    requires WellFormed(f)
    ensures ReadFlow(Render(f)) == f
  {
    LineSplits(f);
    ReadMatchTokens(f);
    var g := f.(tunDest := "", modDlDest := "", output := 0, resubmit := 0, drop := false, local := false);
    ReadTokensLast(BLANK, MatchTokens(f), true, "actions=" + Commas(ActionTokens(f)));
    ReadActionsToken(g, Commas(ActionTokens(f)));
    ReadActionList(f, g);
  }

  /** Hence two different flows are never written as the same line. */
  lemma RenderIsInjective(f: FlowSpec, g: FlowSpec)
    requires WellFormed(f) && WellFormed(g) && Render(f) == Render(g)
    ensures f == g
  {
    RenderIsReadable(f);
    RenderIsReadable(g);
  }

  // ----- Whole buffers

  lemma UnlinesIsJoin(lines: seq<string>)
    ensures Unlines(lines) == Join(lines + [""], '\n')
  {
    if lines != [] {
      var init, last := lines[..|lines| - 1], lines[|lines| - 1];
      assert lines == init + [last];
      JoinLast(lines, "", '\n');
      if init != [] {
        UnlinesIsJoin(init);
        JoinLast(init, last, '\n');
        JoinLast(init, "", '\n');
      }
    }
  }

  /** Splitting a buffer at its newlines gives back the lines added to it. */
  lemma BufferSplits(lines: seq<string>)
    requires Free('\n', lines)
    ensures Split(Unlines(lines), '\n') == lines + [""]
  {
    UnlinesIsJoin(lines);
    SplitJoin(lines + [""], '\n');
  }

  lemma LineIsReadable(f: FlowSpec)
    requires WellFormed(f)
    ensures '\n' !in Render(f) && ReadFlow(Render(f)) == f
  {
    RenderIsReadable(f);
    MatchTokensAreFree(f, '\n');
    ActionTokensAreFree(f, '\n');
    assert Free('\n', LineTokens(f));
    JoinFree(LineTokens(f), ' ', '\n');
  }
}
