/**
  The cache-node list as text. A proxy joins the node names with commas into a shared buffer; its
  clients copy that buffer, cut it into names with strtok_r and parse each name in place. A client
  that talks to ZooKeeper itself parses the names where they are. Buffers are arrays of characters
  with a terminating NUL; a parsed server keeps an offset into the buffer it was cut from, so what
  it designates is a statement about the buffer as the whole list leaves it.
 */
module ArcusNodeList {
  import opened Slices

  const NUL: char := '\0'
  const COMMA: set<char> := {','}
  const COLON_DASH: set<char> := {':', '-'}

  /** sizeof(arcus_proxy_data_st.serverlist) and ARCUS_MAX_PROXY_FILE_LENGTH. */
  const SERVERLIST_SIZE := 10240 - 512
  const BUFFER_SIZE := 10240

  // ---------------------------------------------------------------------------------------------
  // Reference definitions
  // ---------------------------------------------------------------------------------------------

  /** The tokens strtok_r finds: maximal non-empty runs of characters that are not separators. */
  function Tokens(s: string, seps: set<char>): (t: seq<string>)
    ensures s != "" && s[0] !in seps ==> t != []
  {
    if s == "" then []
    else if s[0] in seps then Tokens(s[1..], seps)
    else if |s| == 1 || s[1] in seps then [[s[0]]] + Tokens(s[1..], seps)
    else [[s[0]] + Tokens(s[1..], seps)[0]] + Tokens(s[1..], seps)[1..]
  }

  function Join(names: seq<string>): string {
    if names == [] then ""
    else if |names| == 1 then names[0]
    else names[0] + "," + Join(names[1..])
  }

  predicate Digit(c: char) { '0' <= c <= '9' }

  function DigitsValue(s: string, acc: nat): nat {
    if s == "" || !Digit(s[0]) then acc else DigitsValue(s[1..], 10 * acc + (s[0] as int - '0' as int))
  }

  function SkipBlanks(s: string): string {
    if s != "" && s[0] in {' ', '\t', '\n', '\U{b}', '\U{c}', '\r'} then SkipBlanks(s[1..]) else s
  }

  /** atoi: blanks, an optional sign, digits. */
  function Atoi(s: string): int {
    var t := SkipBlanks(s);
    if t != "" && t[0] == '-' then 0 - DigitsValue(t[1..], 0)
    else if t != "" && t[0] == '+' then DigitsValue(t[1..], 0)
    else DigitsValue(t, 0)
  }

  /** Stored in an unsigned short. */
  function Port(s: string): nat { Atoi(s) % 65536 }

  datatype Server = Server(host: string, port: nat)

  /** The port after parsing a name into a slot whose port field held `slot`. */
  function ParsedPort(name: string, slot: nat): nat {
    var t := Tokens(name, COLON_DASH);
    if |t| >= 2 then Port(t[1]) else slot
  }

  predicate ValidName(name: string, slot: nat) {
    Tokens(name, COLON_DASH) != [] && ParsedPort(name, slot) != 0
  }

  /**
    The servers a list of names yields. Slots come from malloc, so their ports start with whatever
    `memory` holds, and an invalid name leaves its port behind for the next one.
   */
  function Servers(names: seq<string>, memory: seq<nat>, slot: nat): seq<Server> {
    if names == [] then []
    else if ValidName(names[0], slot) then
      [Server(Tokens(names[0], COLON_DASH)[0], ParsedPort(names[0], slot))]
      + Servers(names[1..], if memory == [] then [] else memory[1..], if memory == [] then 0 else memory[0])
    else Servers(names[1..], memory, ParsedPort(names[0], slot))
  }

  /** <IP>:<PORT>-<HOSTNAME>: at least two tokens. */
  predicate Documented(name: string) {
    |Tokens(name, COLON_DASH)| >= 2
  }

  predicate Clean(name: string, seps: set<char>) {
    name != "" && forall i :: 0 <= i < |name| ==> name[i] !in seps
  }

  // ---------------------------------------------------------------------------------------------
  // Facts about the reference definitions
  // ---------------------------------------------------------------------------------------------

  lemma {:induction false} TokensEmpty(s: string, seps: set<char>)
    requires forall i :: 0 <= i < |s| ==> s[i] in seps
    ensures Tokens(s, seps) == []
  {
    if s != "" {
      TokensEmpty(s[1..], seps);
    }
  }

  lemma {:induction false} TokensSkip(s: string, seps: set<char>, k: nat)
    requires k <= |s| && forall i :: 0 <= i < k ==> s[i] in seps
    ensures Tokens(s, seps) == Tokens(s[k..], seps)
  {
    if k > 0 {
      TokensSkip(s[1..], seps, k - 1);
      assert s[1..][k - 1..] == s[k..];
    } else {
      assert s[0..] == s;
    }
  }

  /** The first token, when s starts with one: n characters, then the end or a separator. */
  lemma {:induction false} TokensFirst(s: string, seps: set<char>, n: nat)
    requires 0 < n <= |s|
    requires forall i :: 0 <= i < n ==> s[i] !in seps
    requires n < |s| ==> s[n] in seps
    ensures Tokens(s, seps) == [s[..n]] + Tokens(s[n..], seps)
  {
    if n == 1 {
      assert s[..1] == [s[0]];
    } else {
      TokensFirst(s[1..], seps, n - 1);
      assert s[1..][n - 1..] == s[n..];
      assert s[..n] == [s[0]] + s[1..][..n - 1];
    }
  }

  lemma {:induction false} TokensAreClean(s: string, seps: set<char>)
    ensures forall j :: 0 <= j < |Tokens(s, seps)| ==> Clean(Tokens(s, seps)[j], seps)
  {
    if s != "" {
      TokensAreClean(s[1..], seps);
    }
  }

  lemma {:induction false} TokensOfJoin(names: seq<string>)
    requires forall i :: 0 <= i < |names| ==> Clean(names[i], COMMA)
    ensures Tokens(Join(names), COMMA) == names
  {
    if names != [] {
      var s := Join(names);
      var n := |names[0]|;
      assert s[..n] == names[0];
      TokensFirst(s, COMMA, n);
      if |names| > 1 {
        assert s[n..][1..] == Join(names[1..]);
        TokensOfJoin(names[1..]);
      }
    }
  }

  /** Cutting a joined list gives the list back exactly when no name is empty or has a comma. */
  lemma SplitInvertsJoin(names: seq<string>)
    ensures Tokens(Join(names), COMMA) == names <==> forall i :: 0 <= i < |names| ==> Clean(names[i], COMMA)
  {
    if forall i :: 0 <= i < |names| ==> Clean(names[i], COMMA) {
      TokensOfJoin(names);
    }
    TokensAreClean(Join(names), COMMA);
  }

  /** A comma separates what is before it from what is behind it. */
  lemma {:induction false} TokensAroundComma(a: string, b: string)
    ensures Tokens(a + "," + b, COMMA) == Tokens(a, COMMA) + Tokens(b, COMMA)
  {
    if a == "" {
      assert a + "," + b == "," + b && ("," + b)[1..] == b;
    } else {
      TokensAroundComma(a[1..], b);
      TokensStepComma(a, b);
    }
  }

  lemma TokensUnfold(s: string, seps: set<char>)
    requires s != ""
    ensures s[0] in seps ==> Tokens(s, seps) == Tokens(s[1..], seps)
    ensures s[0] !in seps && (|s| == 1 || s[1] in seps) ==> Tokens(s, seps) == [[s[0]]] + Tokens(s[1..], seps)
    ensures s[0] !in seps && |s| > 1 && s[1] !in seps ==>
      Tokens(s[1..], seps) != [] && Tokens(s, seps) == [[s[0]] + Tokens(s[1..], seps)[0]] + Tokens(s[1..], seps)[1..]
  {
  }

  lemma TokensStepComma(a: string, b: string)
    requires a != "" && Tokens(a[1..] + "," + b, COMMA) == Tokens(a[1..], COMMA) + Tokens(b, COMMA)
    ensures Tokens(a + "," + b, COMMA) == Tokens(a, COMMA) + Tokens(b, COMMA)
  {
    hide Tokens;
    var s, tail := a + "," + b, a[1..] + "," + b;
    assert s[0] == a[0] && s[1..] == tail;
    TokensUnfold(a, COMMA);
    TokensUnfold(s, COMMA);
    var ta, tb := Tokens(a[1..], COMMA), Tokens(b, COMMA);
    if a[0] in COMMA {
    } else if |a| == 1 {
      assert tail[0] == ',' && a[1..] == "";
      assert [[a[0]]] + (ta + tb) == ([[a[0]]] + ta) + tb;
    } else {
      assert tail[0] == a[1];
      if a[1] in COMMA {
        assert [[a[0]]] + (ta + tb) == ([[a[0]]] + ta) + tb;
      } else {
        assert ta != [] && (ta + tb)[0] == ta[0] && (ta + tb)[1..] == ta[1..] + tb;
        assert [[a[0]] + ta[0]] + (ta[1..] + tb) == ([[a[0]] + ta[0]] + ta[1..]) + tb;
      }
    }
  }

  /** How many tokens the names have, one by one. */
  function TokenCount(names: seq<string>): nat {
    if names == [] then 0 else |Tokens(names[0], COMMA)| + TokenCount(names[1..])
  }

  /** The tokens of a joined list are as many as those of its names, one by one. */
  lemma {:induction false} JoinKeepsTokens(names: seq<string>)
    ensures |Tokens(Join(names), COMMA)| == TokenCount(names)
  {
    if |names| == 1 {
      assert TokenCount(names[1..]) == 0;
    } else if names != [] {
      TokensAroundComma(names[0], Join(names[1..]));
      JoinKeepsTokens(names[1..]);
    }
  }

  // ---------------------------------------------------------------------------------------------
  // When the allocated slots suffice
  // ---------------------------------------------------------------------------------------------

  /** Every name is parsed into one of `free` slots; an invalid name leaves its slot to the next one. */
  ghost predicate SlotsSuffice(names: seq<string>, memory: seq<nat>, slot: nat, free: nat) {
    names == [] ||
    (free > 0 &&
     if ValidName(names[0], slot)
     then SlotsSuffice(names[1..], if memory == [] then [] else memory[1..], if memory == [] then 0 else memory[0], free - 1)
     else SlotsSuffice(names[1..], memory, ParsedPort(names[0], slot), free))
  }

  /** The slot, counted from the first, into which the k-th name is parsed. */
  ghost function SlotOf(names: seq<string>, memory: seq<nat>, slot: nat, k: nat): nat
    requires k < |names|
  {
    |Servers(names[..k], memory, slot)|
  }

  /** Where a later name goes, counted from behind the first one. */
  lemma SlotOfNext(names: seq<string>, memory: seq<nat>, slot: nat, k: nat)
    requires k + 1 < |names|
    ensures SlotOf(names, memory, slot, k + 1)
         == if ValidName(names[0], slot)
            then 1 + SlotOf(names[1..], if memory == [] then [] else memory[1..], if memory == [] then 0 else memory[0], k)
            else SlotOf(names[1..], memory, ParsedPort(names[0], slot), k)
  {
    hide ValidName, ParsedPort, Tokens;
    assert names[..k + 1][0] == names[0] && names[..k + 1][1..] == names[1..][..k];
  }

  /** The slots suffice if and only if the names before the last one leave a slot for it. */
  lemma {:induction false} AllocationSufficesIff(names: seq<string>, memory: seq<nat>, slot: nat, free: nat)
    requires names != []
    ensures SlotsSuffice(names, memory, slot, free) <==> SlotOf(names, memory, slot, |names| - 1) < free
    decreases |names|
  {
    hide ValidName, ParsedPort, Tokens;
    if |names| > 1 {
      SlotOfNext(names, memory, slot, |names| - 2);
      if ValidName(names[0], slot) {
        if free > 0 {
          AllocationSufficesIff(names[1..], if memory == [] then [] else memory[1..], if memory == [] then 0 else memory[0], free - 1);
        }
      } else {
        AllocationSufficesIff(names[1..], memory, ParsedPort(names[0], slot), free);
      }
    }
  }

  /** When they do not, some name is parsed into the first slot behind them. */
  lemma {:induction false} ParsedBehindSlots(names: seq<string>, memory: seq<nat>, slot: nat, free: nat) returns (k: nat)
    requires !SlotsSuffice(names, memory, slot, free)
    ensures k < |names| && SlotOf(names, memory, slot, k) == free
    decreases |names|
  {
    hide ValidName, ParsedPort, Tokens;
    if free == 0 {
      k := 0;
      assert names[..0] == [];
    } else {
      if ValidName(names[0], slot) {
        k := ParsedBehindSlots(names[1..], if memory == [] then [] else memory[1..], if memory == [] then 0 else memory[0], free - 1);
      } else {
        k := ParsedBehindSlots(names[1..], memory, ParsedPort(names[0], slot), free);
      }
      SlotOfNext(names, memory, slot, k);
      k := k + 1;
    }
  }

  /** As many slots as names always suffice, and there are no more servers than names. */
  lemma {:induction false} NamesFitSlots(names: seq<string>, memory: seq<nat>, slot: nat, free: nat)
    requires |names| <= free
    ensures SlotsSuffice(names, memory, slot, free) && |Servers(names, memory, slot)| <= |names|
    decreases |names|
  {
    hide ValidName, ParsedPort, Tokens;
    if names != [] {
      if ValidName(names[0], slot) {
        NamesFitSlots(names[1..], if memory == [] then [] else memory[1..], if memory == [] then 0 else memory[0], free - 1);
      } else {
        NamesFitSlots(names[1..], memory, ParsedPort(names[0], slot), free);
      }
    }
  }

  /** A name in the documented form whose port is not zero: valid in every slot. */
  predicate Proper(name: string) { Documented(name) && Port(Tokens(name, COLON_DASH)[1]) != 0 }

  /** Proper names need a slot each. */
  lemma {:induction false} ProperNamesFitIff(names: seq<string>, memory: seq<nat>, slot: nat, free: nat)
    requires forall i :: 0 <= i < |names| ==> Proper(names[i])
    ensures SlotsSuffice(names, memory, slot, free) <==> |names| <= free
    decreases |names|
  {
    hide Tokens, Port;
    if names != [] && free > 0 {
      assert Proper(names[0]);
      ProperNamesFitIff(names[1..], if memory == [] then [] else memory[1..], if memory == [] then 0 else memory[0], free - 1);
    }
  }

  /**
    The receiver allocates a slot for every name that was published, and one more. When the tokens are proper
    names, these suffice if and only if all names together have at most one token more than there are names.
   */
  lemma PublishedNamesFitIff(names: seq<string>, memory: seq<nat>, slot: nat)
    requires forall i :: 0 <= i < |Tokens(Join(names), COMMA)| ==> Proper(Tokens(Join(names), COMMA)[i])
    ensures SlotsSuffice(Tokens(Join(names), COMMA), memory, slot, |names| + 1) <==> TokenCount(names) <= |names| + 1
  {
    hide Tokens, Proper;
    ProperNamesFitIff(Tokens(Join(names), COMMA), memory, slot, |names| + 1);
    JoinKeepsTokens(names);
  }

  lemma ShortNameIsProper(d: char)
    requires '1' <= d <= '9'
    ensures Proper([d, ':', d]) && Clean([d, ':', d], COMMA)
  {
    var name := [d, ':', d];
    assert name[1..] == [':', d] && name[1..][1..] == [d] && [d][1..] == "";
    assert Tokens([d], COLON_DASH) == [[d]];
    assert Tokens(name, COLON_DASH) == [[d]] + [[d]];
    assert SkipBlanks([d]) == [d] && DigitsValue([d], 0) == DigitsValue([d][1..], d as int - '0' as int);
  }

  /** One name with two commas gives more tokens than there are slots; with one comma it still fits. */
  lemma CommasOverrun(memory: seq<nat>, slot: nat)
    ensures var name := Join(["1:1", "2:2", "3:3"]); !SlotsSuffice(Tokens(Join([name]), COMMA), memory, slot, |[name]| + 1)
    ensures var name := Join(["1:1", "2:2"]); SlotsSuffice(Tokens(Join([name]), COMMA), memory, slot, |[name]| + 1)
  {
    hide Tokens, Proper;
    ShortNameIsProper('1');
    ShortNameIsProper('2');
    ShortNameIsProper('3');
    TokensOfJoin(["1:1", "2:2", "3:3"]);
    TokensOfJoin(["1:1", "2:2"]);
    ProperNamesFitIff(["1:1", "2:2", "3:3"], memory, slot, 2);
    ProperNamesFitIff(["1:1", "2:2"], memory, slot, 2);
  }

  /** For names in the documented form the result does not depend on what malloc returned. */
  lemma {:induction false} DocumentedNamesIgnoreMemory(names: seq<string>, m1: seq<nat>, p1: nat, m2: seq<nat>, p2: nat)
    requires forall i :: 0 <= i < |names| ==> Documented(names[i])
    ensures Servers(names, m1, p1) == Servers(names, m2, p2)
    decreases |names|
  {
    if names != [] {
      var q1 := if m1 == [] then 0 else m1[0];
      var q2 := if m2 == [] then 0 else m2[0];
      assert ParsedPort(names[0], p1) == ParsedPort(names[0], p2);
      if ValidName(names[0], p1) {
        DocumentedNamesIgnoreMemory(names[1..], if m1 == [] then [] else m1[1..], q1, if m2 == [] then [] else m2[1..], q2);
      } else {
        DocumentedNamesIgnoreMemory(names[1..], m1, ParsedPort(names[0], p1), m2, ParsedPort(names[0], p2));
      }
    }
  }

  /** The proxied list is the direct list: same servers, same order, same number. */
  lemma ProxiedListIsDirectList(names: seq<string>, m1: seq<nat>, p1: nat, m2: seq<nat>, p2: nat)
    requires forall i :: 0 <= i < |names| ==> Clean(names[i], COMMA) && Documented(names[i])
    ensures |Tokens(Join(names), COMMA)| == |names| && SlotsSuffice(Tokens(Join(names), COMMA), m1, p1, |names| + 1)
    ensures Servers(Tokens(Join(names), COMMA), m1, p1) == Servers(names, m2, p2)
  {
    TokensOfJoin(names);
    NamesFitSlots(names, m1, p1, |names| + 1);
    DocumentedNamesIgnoreMemory(names, m1, p1, m2, p2);
  }

  // ---------------------------------------------------------------------------------------------
  // Names as they are documented
  // ---------------------------------------------------------------------------------------------

  function DigitOf(d: nat): char
    requires d < 10
  {
    "0123456789"[d]
  }

  /** A number in decimal. */
  function Decimal(n: nat): (s: string)
    ensures s != ""
  {
    if n < 10 then [DigitOf(n)] else Decimal(n / 10) + [DigitOf(n % 10)]
  }

  lemma DigitIs(d: nat)
    requires d < 10
    ensures Digit(DigitOf(d)) && DigitOf(d) as int - '0' as int == d && DigitOf(d) !in {',', ':', '-', '+', NUL}
  {
  }

  lemma {:induction false} DecimalIsDigits(n: nat)
    ensures forall i :: 0 <= i < |Decimal(n)| ==> Digit(Decimal(n)[i]) && Decimal(n)[i] !in {',', ':', '-', '+', NUL}
  {
    hide DigitOf;
    DigitIs(n % 10);
    if n >= 10 {
      DecimalIsDigits(n / 10);
    }
  }

  /** Digits are read one after the other. */
  lemma {:induction false} DigitsValueConcat(a: string, b: string, acc: nat)
    requires forall i :: 0 <= i < |a| ==> Digit(a[i])
    ensures DigitsValue(a + b, acc) == DigitsValue(b, DigitsValue(a, acc))
    decreases |a|
  {
    if a == "" {
      assert a + b == b;
    } else {
      assert (a + b)[1..] == a[1..] + b;
      DigitsValueConcat(a[1..], b, 10 * acc + (a[0] as int - '0' as int));
    }
  }

  lemma OneDigit(d: nat, acc: nat)
    requires d < 10
    ensures DigitsValue([DigitOf(d)], acc) == 10 * acc + d
  {
    DigitIs(d);
    assert [DigitOf(d)][1..] == "";
  }

  lemma {:induction false} DecimalReadBack(n: nat)
    ensures DigitsValue(Decimal(n), 0) == n
  {
    hide DigitOf, DigitsValue;
    OneDigit(n % 10, n / 10);
    if n < 10 {
      OneDigit(n, 0);
    } else {
      DecimalReadBack(n / 10);
      DecimalIsDigits(n / 10);
      DigitsValueConcat(Decimal(n / 10), [DigitOf(n % 10)], 0);
    }
  }

  /** A decimal number, with or without a sign, is read as itself, up to the first character that is no digit. */
  lemma AtoiReads(sign: string, n: nat, rest: string)
    requires sign in {"", "-", "+"} && (rest == "" || !Digit(rest[0]))
    ensures Atoi(sign + Decimal(n) + rest) == if sign == "-" then 0 - n else n
  {
    hide Decimal;
    var d, s := Decimal(n), sign + Decimal(n) + rest;
    DecimalIsDigits(n);
    DecimalReadBack(n);
    DigitsValueConcat(d, rest, 0);
    assert s[0] == (if sign == "" then d[0] else sign[0]) && Digit(d[0]);
    assert SkipBlanks(s) == s;
    if sign == "" {
      assert s == d + rest;
    } else {
      assert s[1..] == d + rest;
    }
  }

  /** A port is read modulo 2^16. */
  lemma PortReads(n: nat)
    ensures Port(Decimal(n)) == n % 65536
  {
    hide Decimal, Atoi;
    AtoiReads("", n, "");
    assert "" + Decimal(n) + "" == Decimal(n);
  }

  /** A node: its address, its port and its name. */
  datatype Node = Node(host: string, port: nat, hostname: string)

  /** <IP>:<PORT>-<HOSTNAME> */
  function NodeName(node: Node): string { node.host + ":" + Decimal(node.port) + "-" + node.hostname }

  ghost predicate ValidNode(node: Node) { Clean(node.host, COLON_DASH) && 0 < node.port < 65536 }

  /** A token ends where a separator follows. */
  lemma TokenThen(a: string, c: char, rest: string, seps: set<char>)
    requires Clean(a, seps) && c in seps
    ensures Tokens(a + [c] + rest, seps) == [a] + Tokens([c] + rest, seps)
    ensures Tokens([c] + rest, seps) == Tokens(rest, seps)
  {
    hide Tokens;
    var s, tail := a + [c] + rest, [c] + rest;
    assert s[..|a|] == a && s[|a|..] == tail;
    TokensFirst(s, seps, |a|);
    TokensSkip(tail, seps, 1);
    assert tail[1..] == rest;
  }

  /** The first two tokens of a name are the address and the port, whatever the host is called. */
  lemma NodeTokens(node: Node)
    requires Clean(node.host, COLON_DASH)
    ensures Tokens(NodeName(node), COLON_DASH) == [node.host] + ([Decimal(node.port)] + Tokens("-" + node.hostname, COLON_DASH))
  {
    hide Tokens, Decimal;
    var rest := Decimal(node.port) + "-" + node.hostname;
    DecimalIsDigits(node.port);
    assert NodeName(node) == node.host + ":" + rest;
    TokenThen(node.host, ':', rest, COLON_DASH);
    TokenThen(Decimal(node.port), '-', node.hostname, COLON_DASH);
  }

  /** A documented name gives its address and its port, into whatever slot it is parsed. */
  lemma NodeReadBack(node: Node, slot: nat)
    requires ValidNode(node)
    ensures Documented(NodeName(node)) && Proper(NodeName(node)) && ValidName(NodeName(node), slot)
    ensures Tokens(NodeName(node), COLON_DASH)[0] == node.host && ParsedPort(NodeName(node), slot) == node.port
  {
    hide Tokens, Decimal, NodeName, Port;
    NodeTokens(node);
    PortReads(node.port);
  }

  function NodeNames(nodes: seq<Node>): (names: seq<string>)
    ensures |names| == |nodes| && forall i :: 0 <= i < |nodes| ==> names[i] == NodeName(nodes[i])
  {
    seq(|nodes|, i requires 0 <= i < |nodes| => NodeName(nodes[i]))
  }

  function NodeServers(nodes: seq<Node>): (servers: seq<Server>)
    ensures |servers| == |nodes| && forall i :: 0 <= i < |nodes| ==> servers[i] == Server(nodes[i].host, nodes[i].port)
  {
    seq(|nodes|, i requires 0 <= i < |nodes| => Server(nodes[i].host, nodes[i].port))
  }

  /** A list of documented names gives their addresses and ports, one by one and in order. */
  lemma {:induction false} NodesReadBack(nodes: seq<Node>, memory: seq<nat>, slot: nat)
    requires forall i :: 0 <= i < |nodes| ==> ValidNode(nodes[i])
    ensures Servers(NodeNames(nodes), memory, slot) == NodeServers(nodes)
    decreases |nodes|
  {
    hide Tokens, ValidName, ParsedPort, NodeName;
    if nodes != [] {
      NodeReadBack(nodes[0], slot);
      assert NodeNames(nodes)[1..] == NodeNames(nodes[1..]);
      NodesReadBack(nodes[1..], if memory == [] then [] else memory[1..], if memory == [] then 0 else memory[0]);
      assert NodeServers(nodes) == [Server(nodes[0].host, nodes[0].port)] + NodeServers(nodes[1..]);
    }
  }

  /** So does the list that a proxy has published: joined, cut and parsed, it gives the nodes. */
  lemma PublishedNodesReadBack(nodes: seq<Node>, memory: seq<nat>, slot: nat)
    requires forall i :: 0 <= i < |nodes| ==> ValidNode(nodes[i]) && Clean(NodeName(nodes[i]), COMMA)
    ensures var toks := Tokens(Join(NodeNames(nodes)), COMMA);
      SlotsSuffice(toks, memory, slot, |nodes| + 1) && Servers(toks, memory, slot) == NodeServers(nodes)
  {
    hide Tokens, NodeName, Join, Servers, SlotsSuffice;
    TokensOfJoin(NodeNames(nodes));
    NamesFitSlots(NodeNames(nodes), memory, slot, |nodes| + 1);
    NodesReadBack(nodes, memory, slot);
  }

  // ---------------------------------------------------------------------------------------------
  // The code, on buffers
  // ---------------------------------------------------------------------------------------------

  /** The C string at an offset. */
  ghost predicate IsCString(b: seq<char>, at: nat, s: string) {
    at + |s| < |b| && b[at..at + |s|] == s && b[at + |s|] == NUL && NUL !in s
  }

  function WithCommas(names: seq<string>): string {
    if names == [] then "" else names[0] + "," + WithCommas(names[1..])
  }

  lemma {:induction false} WithCommasAppend(names: seq<string>, name: string)
    ensures WithCommas(names + [name]) == WithCommas(names) + name + ","
  {
    if names == [] {
      assert [name][1..] == [];
    } else {
      assert (names + [name])[1..] == names[1..] + [name];
      WithCommasAppend(names[1..], name);
    }
  }

  lemma {:induction false} WithCommasIsJoin(names: seq<string>)
    requires names != []
    ensures WithCommas(names) == Join(names) + ","
  {
    if |names| > 1 {
      WithCommasIsJoin(names[1..]);
    } else {
      assert WithCommas(names[1..]) == "";
    }
  }

  lemma {:induction false} WithCommasMonotone(names: seq<string>, i: nat)
    requires i <= |names|
    ensures |WithCommas(names[..i])| <= |WithCommas(names)|
  {
    if i > 0 {
      assert names[..i][1..] == names[1..][..i - 1];
      WithCommasMonotone(names[1..], i - 1);
    }
  }

  lemma {:induction false} JoinHasNoNul(names: seq<string>)
    requires forall i :: 0 <= i < |names| ==> NUL !in names[i]
    ensures NUL !in Join(names)
  {
    if |names| > 1 {
      JoinHasNoNul(names[1..]);
    }
  }

  method StrCpy(buf: array<char>, at: nat, src: string)
    requires at + |src| < buf.Length
    modifies buf
    ensures buf[..] == old(buf[..at]) + src + [NUL] + old(buf[at + |src| + 1..])
  {
    for i := 0 to |src|
      invariant forall j :: 0 <= j < i ==> buf[at + j] == src[j]
      invariant forall j :: 0 <= j < buf.Length && !(at <= j < at + i) ==> buf[j] == old(buf[j])
    {
      buf[at + i] := src[i];
    }
    buf[at + |src|] := NUL;
  }

  /** The joining loop of do_arcus_proxy_update_cachelist. */
  method PublishNames(names: seq<string>, serverlist: array<char>) returns (size: nat)
    requires serverlist.Length == SERVERLIST_SIZE
    requires forall i :: 0 <= i < |names| ==> NUL !in names[i]
    requires |WithCommas(names)| <= SERVERLIST_SIZE
    modifies serverlist
    ensures size == |names| && IsCString(serverlist[..], 0, Join(names))
  {
    JoinHasNoNul(names);
    size := |names|;
    if |names| == 0 {
      serverlist[0] := NUL;
      return;
    }
    var w := 0;
    for i := 0 to |names|
      invariant w == |WithCommas(names[..i])| <= serverlist.Length
      invariant serverlist[..w] == WithCommas(names[..i])
    {
      assert names[..i + 1] == names[..i] + [names[i]];
      WithCommasAppend(names[..i], names[i]);
      WithCommasMonotone(names, i + 1);
      StrCpy(serverlist, w, names[i]);
      w := w + |names[i]|;
      serverlist[w] := ',';
      w := w + 1;
    }
    assert names[..|names|] == names;
    WithCommasIsJoin(names);
    serverlist[w - 1] := NUL;
  }

  /** Where the scan of a token that ends at `stop` goes on. */
  function Next(stop: nat, end: nat): nat { if stop < end then stop + 1 else end }

  lemma TokenHere(b: seq<char>, seps: set<char>, start: nat, stop: nat, end: nat)
    requires start < stop <= end <= |b|
    requires forall i :: start <= i < stop ==> b[i] !in seps
    requires stop < end ==> b[stop] in seps
    ensures Next(stop, end) <= end
    ensures Tokens(b[start..end], seps) == [b[start..stop]] + Tokens(b[Next(stop, end)..end], seps)
  {
    var s, n := b[start..end], stop - start;
    TokensFirst(s, seps, n);
    SliceOfSlice(b, start, end, start, stop);
    SliceOfSlice(b, start, end, stop, end);
    assert s[..n] == s[0..n] && s[n..] == s[n..|s|];
    if stop < end {
      assert b[stop..end][1..] == b[stop + 1..end];
    }
  }

  lemma TokenFound(b: seq<char>, seps: set<char>, pos: nat, start: nat, stop: nat, end: nat)
    requires pos <= start < stop <= end <= |b|
    requires forall i :: pos <= i < start ==> b[i] in seps
    requires forall i :: start <= i < stop ==> b[i] !in seps
    requires stop < end ==> b[stop] in seps
    ensures Next(stop, end) <= end
    ensures Tokens(b[pos..end], seps) == [b[start..stop]] + Tokens(b[Next(stop, end)..end], seps)
  {
    TokensSkip(b[pos..end], seps, start - pos);
    assert b[pos..end][start - pos..] == b[start..end];
    TokenHere(b, seps, start, stop, end);
  }

  /** The scanning loops of strtok_r: the token, if any, is [start, stop). */
  method ScanToken(buf: array<char>, pos: nat, seps: set<char>, ghost end: nat) returns (start: nat, stop: nat)
    requires pos <= end < buf.Length && buf[end] == NUL && NUL !in seps
    requires forall i :: pos <= i < end ==> buf[i] != NUL
    ensures pos <= start <= stop <= end
    ensures start == stop ==> Tokens(buf[pos..end], seps) == []
    ensures start < stop ==>
      Tokens(buf[pos..end], seps) == [buf[start..stop]] + Tokens(buf[Next(stop, end)..end], seps)
  {
    start := pos;
    while buf[start] in seps
      invariant pos <= start <= end
      invariant forall i :: pos <= i < start ==> buf[i] in seps
      decreases end - start
    {
      start := start + 1;
    }
    stop := start;
    while buf[stop] != NUL && buf[stop] !in seps
      invariant start <= stop <= end
      invariant forall i :: start <= i < stop ==> buf[i] !in seps
      decreases end - stop
    {
      stop := stop + 1;
    }
    if start == stop {
      TokensEmpty(buf[pos..end], seps);
    } else {
      TokenFound(buf[..], seps, pos, start, stop, end);
    }
  }

  /**
    strtok_r from position `pos` of a string that ends at `end`: the token, if any, starts at
    `start`, is cut off at `stop`, and the scan goes on at `next`.
   */
  method StrTok(buf: array<char>, pos: nat, seps: set<char>, ghost end: nat)
    returns (found: bool, start: nat, stop: nat, next: nat)
    requires pos <= end < buf.Length && buf[end] == NUL && NUL !in seps
    requires forall i :: pos <= i < end ==> buf[i] != NUL
    modifies buf
    ensures !found ==> Tokens(old(buf[pos..end]), seps) == [] && buf[..] == old(buf[..])
    ensures found ==>
      && pos <= start < stop <= end && next == Next(stop, end)
      && buf[..] == old(buf[..])[stop := NUL]
      && Tokens(old(buf[pos..end]), seps) == [old(buf[start..stop])] + Tokens(old(buf[next..end]), seps)
  {
    start, stop := ScanToken(buf, pos, seps, end);
    found, next := start < stop, stop;
    if found && buf[stop] != NUL {
      buf[stop] := NUL;
      next := stop + 1;
    }
  }

  lemma CStringKept(b: seq<char>, b': seq<char>, at: nat, s: string)
    requires IsCString(b, at, s) && |b'| == |b|
    requires forall i :: at <= i <= at + |s| ==> b'[i] == b[i]
    ensures IsCString(b', at, s)
  {
    assert b'[at..at + |s|] == b[at..at + |s|];
  }

  /** A token has been cut: what is known about it and about the rest of the string. */
  ghost predicate Cut(b: seq<char>, seps: set<char>, toks: seq<string>, c: nat, start: nat, stop: nat, next: nat, end: nat) {
    && c < |toks| && start < stop <= end < |b| && next == Next(stop, end)
    && IsCString(b, start, toks[c]) && |toks[c]| == stop - start
    && b[end] == NUL
    && (forall i :: next <= i < end ==> b[i] != NUL)
    && toks[c + 1..] == Tokens(b[next..end], seps)
  }

  lemma TokenIsCut(b: seq<char>, seps: set<char>, toks: seq<string>, c: nat, pos: nat, start: nat, stop: nat, end: nat)
    requires pos <= start < stop <= end < |b| && b[end] == NUL && c <= |toks|
    requires forall i :: pos <= i < end ==> b[i] != NUL
    requires toks[c..] == [b[start..stop]] + Tokens(b[Next(stop, end)..end], seps)
    ensures Cut(b[stop := NUL], seps, toks, c, start, stop, Next(stop, end), end)
  {
    var b', next := b[stop := NUL], Next(stop, end);
    assert toks[c] == toks[c..][0];
    assert b'[start..stop] == b[start..stop];
    assert toks[c + 1..] == toks[c..][1..];
    assert b'[next..end] == b[next..end];
  }

  method NextToken(buf: array<char>, pos: nat, seps: set<char>, ghost end: nat, ghost toks: seq<string>, ghost c: nat)
    returns (found: bool, start: nat, stop: nat, next: nat)
    requires NUL !in seps && pos <= end < buf.Length && buf[end] == NUL && forall i :: pos <= i < end ==> buf[i] != NUL
    requires c <= |toks| && toks[c..] == Tokens(buf[..][pos..end], seps)
    modifies buf
    ensures forall i :: 0 <= i < buf.Length && !(pos <= i < end) ==> buf[i] == old(buf[i])
    ensures found <==> c < |toks|
    ensures found ==> pos <= start && Cut(buf[..], seps, toks, c, start, stop, next, end)
  {
    ghost var b := buf[..];
    assert b[pos..end] == buf[pos..end];
    found, start, stop, next := StrTok(buf, pos, seps, end);
    if found {
      assert b[start..stop] == old(buf[start..stop]) && b[next..end] == old(buf[next..end]);
      TokenIsCut(b, seps, toks, c, pos, start, stop, end);
    } else {
      assert |toks[c..]| == 0;
    }
  }

  /** do_add_server_to_cachelist on the name in [at, end), into a slot with the given host and port. */
  method ParseName(buf: array<char>, at: nat, ghost end: nat, slotHost: nat, slotPort: nat)
    returns (ok: bool, host: nat, port: nat)
    requires at <= end < buf.Length && buf[end] == NUL && forall i :: at <= i < end ==> buf[i] != NUL
    modifies buf
    ensures forall i :: 0 <= i < buf.Length && !(at <= i < end) ==> buf[i] == old(buf[i])
    ensures ok == ValidName(old(buf[at..end]), slotPort) && port == ParsedPort(old(buf[at..end]), slotPort)
    ensures ok ==>
      && at <= host && host + |Tokens(old(buf[at..end]), COLON_DASH)[0]| <= end
      && IsCString(buf[..], host, Tokens(old(buf[at..end]), COLON_DASH)[0])
  {
    hide Tokens, Port;
    ghost var toks := Tokens(buf[at..end], COLON_DASH);
    assert toks[0..] == toks && buf[..][at..end] == buf[at..end];
    host, port := slotHost, slotPort;
    var c := 0;
    var found, start, stop, next := NextToken(buf, at, COLON_DASH, end, toks, 0);
    while found
      invariant c <= 2 && (!found ==> c == |toks|)
      invariant found ==> at <= start && Cut(buf[..], COLON_DASH, toks, c, start, stop, next, end)
      invariant forall i :: 0 <= i < buf.Length && !(at <= i < end) ==> buf[i] == old(buf[i])
      invariant 0 < c <= |toks| ==>
        && at <= host && host + |toks[0]| <= end && (found ==> host + |toks[0]| < start)
        && IsCString(buf[..], host, toks[0])
      invariant port == if 2 <= c <= |toks| then Port(toks[1]) else slotPort
      decreases |toks| - c
    {
      if c == 0 {
        host := start;
      } else if c == 1 {
        assert buf[start..stop] == toks[1];
        port := Port(buf[start..stop]);
      } else {
        break;
      }
      ghost var before := buf[..];
      found, start, stop, next := NextToken(buf, next, COLON_DASH, end, toks, c + 1);
      CStringKept(before, buf[..], host, toks[0]);
      c := c + 1;
    }
    ok := !(c < 1 || port == 0);
  }

  /** The filled slots of the serverinfo array designate these servers, by characters in `used`. */
  ghost predicate Designates(b: seq<char>, hosts: seq<nat>, ports: seq<nat>, servers: seq<Server>, used: set<nat>) {
    && |servers| <= |hosts| == |ports|
    && (forall i :: 0 <= i < |servers| ==> IsCString(b, hosts[i], servers[i].host) && ports[i] == servers[i].port)
    && forall i, k :: 0 <= i < |servers| && hosts[i] <= k <= hosts[i] + |servers[i].host| ==> k in used
  }

  lemma EmptyDesignates(b: seq<char>, hosts: seq<nat>, ports: seq<nat>, used: set<nat>)
    requires |hosts| == |ports|
    ensures Designates(b, hosts, ports, [], used)
  {
  }

  lemma DesignatesKept(b: seq<char>, b': seq<char>, hosts: seq<nat>, ports: seq<nat>, servers: seq<Server>, used: set<nat>)
    requires Designates(b, hosts, ports, servers, used) && |b'| == |b|
    requires forall i :: 0 <= i < |b| && i in used ==> b'[i] == b[i]
    ensures Designates(b', hosts, ports, servers, used)
  {
    forall i | 0 <= i < |servers|
      ensures IsCString(b', hosts[i], servers[i].host)
    {
      CStringKept(b, b', hosts[i], servers[i].host);
    }
  }

  function Range(lo: nat, hi: nat): (r: set<nat>)
    ensures forall k :: k in r <==> lo <= k <= hi
    decreases hi - lo
  {
    if lo > hi then {} else {lo} + Range(lo + 1, hi)
  }

  /**
    The progress of a list: `done` is what the slots hold, `rest` the names still to come, for which the other
    slots suffice.
   */
  ghost predicate Progress(all: seq<Server>, done: seq<Server>, rest: seq<string>, memory: seq<nat>, ports: seq<nat>) {
    && |done| <= |ports| == |memory|
    && if |done| == |ports| then rest == [] && all == done
       else
         && ports[|done| + 1..] == memory[|done| + 1..]
         && SlotsSuffice(rest, memory[|done| + 1..], ports[|done|], |ports| - |done|)
         && all == done + Servers(rest, memory[|done| + 1..], ports[|done|])
  }

  lemma ProgressEnds(all: seq<Server>, done: seq<Server>, memory: seq<nat>, ports: seq<nat>)
    requires Progress(all, done, [], memory, ports)
    ensures done == all
  {
  }

  lemma LastSlotTaken(names: seq<string>, slot: nat)
    requires names != [] && SlotsSuffice(names, [], slot, 1) && ValidName(names[0], slot)
    ensures names[1..] == []
    ensures Servers(names, [], slot) == [Server(Tokens(names[0], COLON_DASH)[0], ParsedPort(names[0], slot))]
  {
    hide Tokens, ParsedPort;
  }

  lemma ProgressStep(all: seq<Server>, done: seq<Server>, rest: seq<string>, memory: seq<nat>, ports: seq<nat>, port: nat)
    requires Progress(all, done, rest, memory, ports) && rest != []
    requires port == ParsedPort(rest[0], ports[|done|])
    ensures var ports' := ports[|done| := port];
            if ValidName(rest[0], ports[|done|])
            then Progress(all, done + [Server(Tokens(rest[0], COLON_DASH)[0], port)], rest[1..], memory, ports')
            else Progress(all, done, rest[1..], memory, ports')
  {
    hide Tokens;
    var n := |done|;
    var ports' := ports[n := port];
    assert ports'[n + 1..] == ports[n + 1..];
    if ValidName(rest[0], ports[n]) {
      var server := Server(Tokens(rest[0], COLON_DASH)[0], port);
      if n + 1 < |ports| {
        assert memory[n + 1..][1..] == memory[n + 2..];
        assert ports'[n + 2..] == ports[n + 1..][1..];
        assert ports'[n + 1] == ports[n + 1..][0] == memory[n + 1..][0];
        assert done + ([server] + Servers(rest[1..], memory[n + 2..], ports'[n + 1]))
            == (done + [server]) + Servers(rest[1..], memory[n + 2..], ports'[n + 1]);
      } else {
        assert memory[n + 1..] == [];
        LastSlotTaken(rest, ports[n]);
      }
    }
  }

  lemma DesignatesOneMore(b: seq<char>, hosts: seq<nat>, ports: seq<nat>, servers: seq<Server>, used: set<nat>,
                          at: nat, end: nat, server: Server)
    requires Designates(b, hosts, ports, servers, used) && |servers| < |hosts|
    requires IsCString(b, hosts[|servers|], server.host) && ports[|servers|] == server.port
    requires at <= hosts[|servers|] && hosts[|servers|] + |server.host| <= end
    ensures Designates(b, hosts, ports, servers + [server], used + Range(at, end))
  {
  }

  /** One turn of either loop: parse the name in [at, end) into the next free slot. */
  method AddServer(buf: array<char>, at: nat, ghost end: nat, hosts: array<nat>, ports: array<nat>, count: nat,
                   ghost all: seq<Server>, ghost done: seq<Server>, ghost rest: seq<string>,
                   ghost memory: seq<nat>, ghost used: set<nat>)
    returns (count': nat, ghost done': seq<Server>)
    requires at <= end < buf.Length && buf[end] == NUL && forall i :: at <= i < end ==> buf[i] != NUL
    requires hosts != ports && hosts.Length == ports.Length && count == |done|
    requires Progress(all, done, rest, memory, ports[..]) && rest != [] && rest[0] == buf[at..end]
    requires Designates(buf[..], hosts[..], ports[..], done, used) && used !! Range(at, end)
    modifies buf, hosts, ports
    ensures forall i :: 0 <= i < buf.Length && !(at <= i < end) ==> buf[i] == old(buf[i])
    ensures count' == |done'| && Progress(all, done', rest[1..], memory, ports[..])
    ensures Designates(buf[..], hosts[..], ports[..], done', used + Range(at, end))
  {
    ghost var b, slotPort := buf[..], ports[count];
    var ok, host, port := ParseName(buf, at, end, hosts[count], ports[count]);
    forall i | 0 <= i < |b| && i in used
      ensures buf[..][i] == b[i]
    {
      assert i !in Range(at, end);
    }
    ProgressStep(all, done, rest, memory, ports[..], port);
    DesignatesKept(b, buf[..], hosts[..], ports[..], done, used);
    hosts[count] := host;
    ports[count] := port;
    assert ports[..] == old(ports[..])[count := port];
    assert Designates(buf[..], hosts[..], ports[..], done, used);
    count', done' := count, done;
    if ok {
      ghost var server := Server(Tokens(rest[0], COLON_DASH)[0], port);
      DesignatesOneMore(buf[..], hosts[..], ports[..], done, used, at, end, server);
      count', done' := count + 1, done + [server];
    }
  }

  lemma DesignatesWiden(b: seq<char>, hosts: seq<nat>, ports: seq<nat>, servers: seq<Server>, used: set<nat>, more: set<nat>)
    requires Designates(b, hosts, ports, servers, used) && used <= more
    ensures Designates(b, hosts, ports, servers, more)
  {
  }

  lemma SliceUntouched(b: seq<char>, b': seq<char>, start: nat, stop: nat, next: nat, n: nat)
    requires |b'| == |b| && forall i :: 0 <= i < |b| && !(start <= i < stop) ==> b'[i] == b[i]
    requires stop <= next <= n <= |b|
    ensures b'[next..n] == b[next..n]
  {
  }

  /** One turn of the strtok_r loop: parse the k-th name, which has been cut, and cut the next one. */
  method ParseAndAdvance(buf: array<char>, start: nat, ghost stop: nat, next: nat, ghost n: nat,
                         hosts: array<nat>, ports: array<nat>, count: nat,
                         ghost all: seq<Server>, ghost done: seq<Server>, ghost toks: seq<string>, ghost k: nat,
                         ghost memory: seq<nat>)
    returns (count': nat, ghost done': seq<Server>, found: bool, start': nat, stop': nat, next': nat)
    requires Cut(buf[..], COMMA, toks, k, start, stop, next, n)
    requires hosts != ports && hosts.Length == ports.Length && count == |done|
    requires Progress(all, done, toks[k..], memory, ports[..])
    requires start > 0 ==> Designates(buf[..], hosts[..], ports[..], done, Range(0, start - 1))
    requires start == 0 ==> done == []
    modifies buf, hosts, ports
    ensures count' == |done'| && Progress(all, done', toks[k + 1..], memory, ports[..])
    ensures found <==> k + 1 < |toks|
    ensures Designates(buf[..], hosts[..], ports[..], done', Range(0, stop))
    ensures found ==> stop < start' && Cut(buf[..], COMMA, toks, k + 1, start', stop', next', n)
  {
    hide Progress;
    ghost var b := buf[..];
    ghost var used := if start == 0 then {} else Range(0, start - 1);
    assert buf[start..stop] == toks[k] && toks[k..][0] == toks[k] && toks[k..][1..] == toks[k + 1..];
    count', done' := AddServer(buf, start, stop, hosts, ports, count, all, done, toks[k..], memory, used);
    DesignatesWiden(buf[..], hosts[..], ports[..], done', used + Range(start, stop), Range(0, stop));
    SliceUntouched(b, buf[..], start, stop, next, n);
    b := buf[..];
    found, start', stop', next' := NextToken(buf, next, COMMA, n, toks, k + 1);
    DesignatesKept(b, buf[..], hosts[..], ports[..], done', Range(0, stop));
  }

  /** The strtok_r loop over the comma-separated list in [0, n). */
  method ParseList(buf: array<char>, ghost n: nat, hosts: array<nat>, ports: array<nat>, ghost text: string)
    returns (count: nat, ghost servers: seq<Server>)
    requires n < buf.Length && buf[n] == NUL && forall i :: 0 <= i < n ==> buf[i] != NUL
    requires text == buf[..][0..n]
    requires hosts != ports && 0 < hosts.Length == ports.Length
    requires SlotsSuffice(Tokens(text, COMMA), ports[..][1..], ports[0], ports.Length)
    modifies buf, hosts, ports
    ensures servers == Servers(Tokens(text, COMMA), old(ports[..])[1..], old(ports[..])[0])
    ensures count == |servers| <= hosts.Length
    ensures Designates(buf[..], hosts[..], ports[..], servers, Range(0, n))
  {
    hide Tokens, Servers, IsCString, Designates, SlotsSuffice;
    ghost var memory, toks := ports[..], Tokens(text, COMMA);
    ghost var all, k, used: nat := Servers(toks, memory[1..], memory[0]), 0, 0;
    count, servers := 0, [];
    assert toks[0..] == toks;
    var found: bool, start: nat, stop: nat, next: nat := NextToken(buf, 0, COMMA, n, toks, 0);
    while found
      invariant k <= |toks| && (!found ==> k == |toks|)
      invariant count == |servers| && Progress(all, servers, toks[k..], memory, ports[..])
      invariant found ==> Cut(buf[..], COMMA, toks, k, start, stop, next, n)
      invariant if k == 0 then servers == [] else Designates(buf[..], hosts[..], ports[..], servers, Range(0, used))
      invariant used <= n && (found && k > 0 ==> used < start)
      decreases |toks| - k
    {
      if k > 0 {
        DesignatesWiden(buf[..], hosts[..], ports[..], servers, Range(0, used), Range(0, start - 1));
      } else if start > 0 {
        EmptyDesignates(buf[..], hosts[..], ports[..], Range(0, start - 1));
      }
      used := stop;
      count, servers, found, start, stop, next :=
        ParseAndAdvance(buf, start, stop, next, n, hosts, ports, count, all, servers, toks, k, memory);
      k := k + 1;
    }
    assert toks[k..] == [];
    ProgressEnds(all, servers, memory, ports[..]);
    if k > 0 {
      DesignatesWiden(buf[..], hosts[..], ports[..], servers, Range(0, used), Range(0, n));
    } else {
      EmptyDesignates(buf[..], hosts[..], ports[..], Range(0, n));
    }
  }

  lemma NoNulInside(b: seq<char>, at: nat, s: string)
    requires IsCString(b, at, s)
    ensures forall i :: at <= i < at + |s| ==> b[i] != NUL
  {
    forall i | at <= i < at + |s|
      ensures b[i] != NUL
    {
      assert b[i] == b[at..at + |s|][i - at];
      assert s[i - at] in s;
    }
  }

  lemma StringApartKept(b: seq<char>, b': seq<char>, at: nat, end: nat, other: nat, s: string)
    requires IsCString(b, other, s) && |b'| == |b| && Range(at, end) !! Range(other, other + |s|)
    requires forall i :: 0 <= i < |b| && !(at <= i < end) ==> b'[i] == b[i]
    ensures IsCString(b', other, s)
  {
    forall i | other <= i <= other + |s|
      ensures b'[i] == b[i]
    {
      assert i in Range(other, other + |s|);
    }
    CStringKept(b, b', other, s);
  }

  /** strncpy of a C string into a cleared buffer. */
  method CopyString(src: array<char>, buf: array<char>, ghost text: string)
    requires IsCString(src[..], 0, text) && |text| < buf.Length && src != buf
    requires forall i :: 0 <= i < buf.Length ==> buf[i] == NUL
    modifies buf
    ensures IsCString(buf[..], 0, text)
  {
    var k := 0;
    while src[k] != NUL
      invariant k <= |text| && buf[..k] == text[..k]
      invariant forall i :: k <= i < buf.Length ==> buf[i] == NUL
      decreases |text| - k
    {
      assert src[..][0..|text|][k] == text[k];
      buf[k] := src[k];
      k := k + 1;
    }
  }

  /** do_arcus_zk_update_cachelist_by_string, up to the hand-over of the server list. */
  method ReadProxied(serverlist: array<char>, size: nat, hosts: array<nat>, ports: array<nat>, ghost text: string)
    returns (buf: array<char>, count: nat, ghost servers: seq<Server>)
    requires serverlist.Length == SERVERLIST_SIZE && IsCString(serverlist[..], 0, text)
    requires hosts != ports && hosts.Length == ports.Length == size + 1
    requires size > 0 ==> SlotsSuffice(Tokens(text, COMMA), ports[..][1..], ports[0], size + 1)
    modifies hosts, ports
    ensures servers == if size == 0 then [] else Servers(Tokens(text, COMMA), old(ports[..])[1..], old(ports[..])[0])
    ensures count == |servers| <= size + 1
    ensures Designates(buf[..], hosts[..], ports[..], servers, Range(0, |text|))
  {
    buf := new char[BUFFER_SIZE](i => NUL);
    CopyString(serverlist, buf, text);
    count, servers := 0, [];
    if size > 0 {
      NoNulInside(buf[..], 0, text);
      count, servers := ParseList(buf, |text|, hosts, ports, text);
    }
  }

  /** The loop of do_arcus_zk_update_cachelist over names that lie apart in memory. */
  method ReadDirect(heap: array<char>, data: seq<nat>, hosts: array<nat>, ports: array<nat>, ghost names: seq<string>)
    returns (count: nat, ghost servers: seq<Server>, ghost used: set<nat>)
    requires |data| == |names| && forall i :: 0 <= i < |data| ==> IsCString(heap[..], data[i], names[i])
    requires forall i, j :: 0 <= i < j < |data| ==>
               Range(data[i], data[i] + |names[i]|) !! Range(data[j], data[j] + |names[j]|)
    requires hosts != ports && hosts.Length == ports.Length == |data| + 1
    modifies heap, hosts, ports
    ensures servers == Servers(names, old(ports[..])[1..], old(ports[..])[0])
    ensures count == |servers| <= |data|
    ensures Designates(heap[..], hosts[..], ports[..], servers, used)
  {
    hide Tokens, Servers, ValidName, ParsedPort, Designates, SlotsSuffice;
    NamesFitSlots(names, ports[..][1..], ports[0], ports.Length);
    EmptyDesignates(heap[..], hosts[..], ports[..], {});
    ghost var memory := ports[..];
    ghost var all := Servers(names, memory[1..], memory[0]);
    count, servers, used := 0, [], {};
    assert names[0..] == names;
    for k := 0 to |data|
      invariant count == |servers| && Progress(all, servers, names[k..], memory, ports[..])
      invariant Designates(heap[..], hosts[..], ports[..], servers, used)
      invariant forall j :: k <= j < |data| ==>
                  IsCString(heap[..], data[j], names[j]) && used !! Range(data[j], data[j] + |names[j]|)
    {
      ghost var b, end := heap[..], data[k] + |names[k]|;
      NoNulInside(b, data[k], names[k]);
      assert heap[data[k]..end] == names[k] && names[k..][0] == names[k] && names[k..][1..] == names[k + 1..];
      count, servers := AddServer(heap, data[k], end, hosts, ports, count, all, servers, names[k..], memory, used);
      forall j | k < j < |data|
        ensures IsCString(heap[..], data[j], names[j])
      {
        StringApartKept(b, heap[..], data[k], end, data[j], names[j]);
      }
      used := used + Range(data[k], end);
    }
    assert names[|data|..] == [];
    ProgressEnds(all, servers, memory, ports[..]);
  }
}
