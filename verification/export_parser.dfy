/** Reading the device's configuration out of RouterOS `export` text: the
    continuation lines are collapsed, the text is cut into lines, and each
    line is scanned for the `key=value` tokens of a route or of an IPIP
    tunnel. Parsing is best effort: a line without the required fields is
    dropped, never an error. */
module ExportParser {
  import opened Wrappers
  import opened Text
  import opened Encap

  /** A device route: destination CIDR and gateway (a tunnel interface name). */
  datatype Route = Route(dst: string, gateway: string)

  /** A device IPIP tunnel: interface name and remote address. */
  datatype Ipip = Ipip(name: string, remote: string)

  /* ---------- Continuation lines ---------- */

  /** RouterOS wraps a long export line as backslash, CR, LF and a
      four-space indent. */
  const Continuation: string := "\\\r\n    "

  /** `export.replace(Continuation, "")`: every occurrence found in a left
      to right scan is removed. */
  function Collapse(s: string): (r: string)
    ensures |r| <= |s|
    decreases |s|
  {
    if |s| >= |Continuation| && s[..|Continuation|] == Continuation then
      Collapse(s[|Continuation|..])
    else if s == [] then []
    else [s[0]] + Collapse(s[1..])
  }

  /** Text without a backslash is left alone (every continuation starts with
      one). */
  lemma {:induction false} CollapseNoBackslash(s: string)
    requires '\\' !in s
    ensures Collapse(s) == s
  {
    if s != [] {
      assert s[0] != '\\';
      CollapseNoBackslash(s[1..]);
      assert [s[0]] + s[1..] == s;
    }
  }

  /** A continuation begins at index `i` of `s`. */
  predicate ContinuationAt(s: string, i: nat) {
    i + |Continuation| <= |s| && s[i..i + |Continuation|] == Continuation
  }

  /** Text in which no continuation occurs is left alone. */
  lemma {:induction false} CollapseNoContinuation(s: string)
    requires forall i: nat :: !ContinuationAt(s, i)
    ensures Collapse(s) == s
    decreases |s|
  {
    if s != [] {
      var n := |Continuation|;
      assert !ContinuationAt(s, 0);
      if |s| >= n {
        assert s[..n] == s[0..n];
      }
      forall i: nat
        ensures !ContinuationAt(s[1..], i)
      {
        assert !ContinuationAt(s, i + 1);
        if i + n <= |s[1..]| {
          assert s[1..][i..i + n] == s[i + 1..i + 1 + n];
        }
      }
      CollapseNoContinuation(s[1..]);
      assert [s[0]] + s[1..] == s;
    }
  }

  /** No continuation can start inside a backslash-free prefix. */
  lemma {:induction false} CollapseFreePrefix(a: string, s: string)
    requires '\\' !in a
    ensures Collapse(a + s) == a + Collapse(s)
  {
    if a != [] {
      var t := a + s;
      assert t[0] == a[0] != '\\' == Continuation[0];
      if |Continuation| <= |t| {
        assert t[..|Continuation|][0] == t[0];
      }
      assert t[1..] == a[1..] + s;
      CollapseFreePrefix(a[1..], s);
      assert Collapse(t) == [a[0]] + Collapse(t[1..]);
      assert [a[0]] + (a[1..] + Collapse(s)) == a + Collapse(s);
    } else {
      assert a + s == s;
    }
  }

  /** Every continuation is removed, whatever precedes it: its only
      backslash is its first character, so no occurrence found by the scan
      can straddle either of its ends. */
  lemma {:induction false} ContinuationRemoved(a: string, b: string)
    ensures Collapse(a + Continuation + b) == Collapse(a) + Collapse(b)
    decreases |a|
  {
    var s := a + Continuation + b;
    var n := |Continuation|;
    if a == [] {
      assert s == Continuation + b;
      assert s[..n] == Continuation;
      assert s[n..] == b;
    } else if |a| >= n && a[..n] == Continuation {
      assert s[..n] == a[..n];
      assert s[n..] == a[n..] + Continuation + b;
      ContinuationRemoved(a[n..], b);
    } else {
      assert s[..n] != Continuation by {
        if |a| >= n {
          assert s[..n] == a[..n];
        } else {
          assert s[|a|] == '\\';
          assert Continuation[|a|] != '\\';
          assert s[..n][|a|] == s[|a|];
        }
      }
      assert s[1..] == a[1..] + Continuation + b;
      ContinuationRemoved(a[1..], b);
      assert s[0] == a[0];
    }
  }

  /** One pass only: a continuation that a removal brings together is left
      in the text. */
  lemma SinglePass()
    ensures Collapse("\\" + Continuation + "\r\n    ") == Continuation
  {
    ContinuationRemoved("\\", "\r\n    ");
    CollapseNoBackslash("\r\n    ");
    assert Collapse("\\") == "\\";
  }

  /* ---------- Line splitting ---------- */

  /** Python 2's `str.splitlines()` breaks at LF, at CR, and at CR LF. */
  predicate IsLineBreak(ch: char) {
    ch == '\n' || ch == '\r'
  }

  predicate NoLineBreak(s: string) {
    forall i :: 0 <= i < |s| ==> !IsLineBreak(s[i])
  }

  /** The index of the first line break in `s`, or `|s|` if there is none. */
  function LineEnd(s: string): (k: nat)
    ensures k <= |s|
    ensures NoLineBreak(s[..k])
    ensures k < |s| ==> IsLineBreak(s[k])
  {
    if s == [] || IsLineBreak(s[0]) then 0
    else
      var k := 1 + LineEnd(s[1..]);
      assert s[..k] == [s[0]] + s[1..][..k - 1];
      k
  }

  /** `str.splitlines()`: the lines without their breaks; a final break does
      not start another line, and empty text has no lines. */
  function SplitLines(s: string): (lines: seq<string>)
    ensures forall i :: 0 <= i < |lines| ==> NoLineBreak(lines[i])
    decreases |s|
  {
    if s == [] then []
    else
      var k := LineEnd(s);
      var next :=
        if k == |s| then k
        else if s[k] == '\r' && k + 1 < |s| && s[k + 1] == '\n' then k + 2
        else k + 1;
      [s[..k]] + SplitLines(s[next..])
  }

  /** A non-empty text without breaks is one line. */
  lemma OneLine(s: string)
    requires s != [] && NoLineBreak(s)
    ensures SplitLines(s) == [s]
  {
    var k := LineEnd(s);
    assert k == |s|;
    assert s[..k] == s;
    assert s[k..] == [];
  }

  /** The three line terminators `splitlines` recognises. */
  predicate LineTerminator(eol: string) {
    eol == "\n" || eol == "\r" || eol == "\r\n"
  }

  /** Lines each followed by the same terminator. */
  function Terminated(lines: seq<string>, eol: string): string {
    if lines == [] then [] else lines[0] + eol + Terminated(lines[1..], eol)
  }

  /** One line and its terminator come off the front of the text, unless a
      lone CR is followed by an LF, which would join the two into CR LF. */
  lemma SplitLinesStep(l: string, eol: string, rest: string)
    requires LineTerminator(eol) && NoLineBreak(l)
    requires eol == "\r" && rest != [] ==> rest[0] != '\n'
    ensures SplitLines(l + eol + rest) == [l] + SplitLines(rest)
  {
    var s := l + eol + rest;
    var k := LineEnd(s);
    assert s[|l|] == eol[0];
    assert forall i :: 0 <= i < |l| ==> s[i] == l[i];
    assert k == |l|;
    assert s[..k] == l;
    assert s[k + |eol|..] == rest;
  }

  /** Splitting terminated lines gives the lines back, whichever of LF, CR
      or CR LF (the terminator RouterOS writes) ends them. */
  lemma {:induction false} SplitLinesTerminated(lines: seq<string>, eol: string)
    requires LineTerminator(eol)
    requires forall i :: 0 <= i < |lines| ==> NoLineBreak(lines[i])
    ensures SplitLines(Terminated(lines, eol)) == lines
  {
    if lines != [] {
      var rest := Terminated(lines[1..], eol);
      if |lines| > 1 {
        // The text after a terminator starts the next line or its terminator.
        assert rest == lines[1] + eol + Terminated(lines[2..], eol);
        if lines[1] != [] {
          assert rest[0] == lines[1][0];
        } else {
          assert rest[0] == eol[0];
        }
      }
      SplitLinesStep(lines[0], eol, rest);
      SplitLinesTerminated(lines[1..], eol);
      assert lines == [lines[0]] + lines[1..];
    }
  }

  /** `export_ros`'s text transform: collapse, then split into lines. */
  function ExportLines(text: string): (lines: seq<string>)
    ensures forall i :: 0 <= i < |lines| ==> NoLineBreak(lines[i])
    ensures '\\' !in text ==> lines == SplitLines(text)
  {
    var collapsed := Collapse(text);
    assert '\\' !in text ==> collapsed == text by {
      if '\\' !in text {
        CollapseNoBackslash(text);
      }
    }
    SplitLines(collapsed)
  }

  /** A continuation is invisible to the line structure: the text reads as
      if the two halves had been written on one line. */
  lemma ContinuationJoinsLines(a: string, b: string)
    requires '\\' !in a
    ensures ExportLines(a + Continuation + b) == ExportLines(a + b)
  {
    ContinuationRemoved(a, b);
    CollapseNoBackslash(a);
    CollapseFreePrefix(a, b);
  }

  /* ---------- Tokens ---------- */

  /** `param, val = field.split("=")`: only a field with exactly one '='
      yields a pair; any other field is skipped. */
  function KeyVal(field: string): Option<(string, string)> {
    var parts := Split(field, '=');
    if |parts| == 2 then Some((parts[0], parts[1])) else None
  }

  /** What a pair means: a field yields one only when it is an '='-free key,
      one '=' and an '='-free value, and a field without '=' yields none. */
  lemma KeyValSplits(field: string)
    ensures var kv := KeyVal(field);
      && (kv.Some? ==> '=' !in kv.value.0 && '=' !in kv.value.1
                       && field == kv.value.0 + "=" + kv.value.1)
      && ('=' !in field ==> kv.None?)
  {
    var parts := Split(field, '=');
    JoinSplit(field, '=');
    if '=' !in field {
      SplitNoSeparator(field, '=');
    } else if |parts| == 2 {
      assert Join(parts, '=') == parts[0] + "=" + parts[1];
    }
  }

  /** A key and a value free of '=' come back out of "key=value". */
  lemma KeyValOfPair(key: string, val: string)
    requires '=' !in key && '=' !in val
    ensures KeyVal(key + "=" + val) == Some((key, val))
  {
    assert key + "=" + val == key + ['='] + val;
    SplitAt(key, '=', val);
    SplitNoSeparator(key, '=');
    SplitNoSeparator(val, '=');
  }

  /** Which token a parser variable takes: its key, and whether the value
      must carry the "ampr-" prefix to be taken. */
  datatype FieldRule = FieldRule(key: string, needsPrefix: bool)

  predicate Takes(rule: FieldRule, field: string) {
    var kv := KeyVal(field);
    kv.Some? && kv.value.0 == rule.key && (!rule.needsPrefix || StartsWith(kv.value.1, AmprPrefix))
  }

  /** The value of the last field the rule takes: a later token overwrites
      an earlier one. */
  function LastValue(fields: seq<string>, rule: FieldRule): Option<string> {
    if fields == [] then None
    else if Takes(rule, fields[|fields| - 1]) then Some(KeyVal(fields[|fields| - 1]).value.1)
    else LastValue(fields[..|fields| - 1], rule)
  }

  /** `LastValue` is the value of the last field taken, and `None` exactly
      when no field is taken. */
  lemma {:induction false} LastValueIsLastTaken(fields: seq<string>, rule: FieldRule)
    ensures LastValue(fields, rule).None? <==> forall j :: 0 <= j < |fields| ==> !Takes(rule, fields[j])
    ensures LastValue(fields, rule).Some? ==>
      exists j :: 0 <= j < |fields| && Takes(rule, fields[j])
        && KeyVal(fields[j]).value.1 == LastValue(fields, rule).value
        && forall k :: j < k < |fields| ==> !Takes(rule, fields[k])
  {
    if fields != [] {
      var init := fields[..|fields| - 1];
      LastValueIsLastTaken(init, rule);
      assert forall j :: 0 <= j < |init| ==> init[j] == fields[j];
    }
  }

  const DstRule := FieldRule("dst-address", false)
  const GatewayRule := FieldRule("gateway", true)
  const NameRule := FieldRule("name", true)
  const RemoteRule := FieldRule("remote-address", false)

  /** `parse_ros_route` as a specification: the last `dst-address` value and
      the last `gateway` value carrying the prefix, both non-empty. */
  function RouteOf(line: string): Option<Route> {
    var fields := Split(line, ' ');
    var dst := LastValue(fields, DstRule);
    var gw := LastValue(fields, GatewayRule);
    if dst.Some? && dst.value != "" && gw.Some? && gw.value != "" then Some(Route(dst.value, gw.value))
    else None
  }

  /** `parse_ros_ipip` as a specification: the last `name` value carrying the
      prefix and the last `remote-address` value, both non-empty. */
  function IpipOf(line: string): Option<Ipip> {
    var fields := Split(line, ' ');
    var name := LastValue(fields, NameRule);
    var remote := LastValue(fields, RemoteRule);
    if name.Some? && name.value != "" && remote.Some? && remote.value != "" then Some(Ipip(name.value, remote.value))
    else None
  }

  /** `parse_ros_route`: walks the space-separated tokens, the last
      `dst-address` and the last prefixed `gateway` winning. */
  method ParseRosRoute(line: string) returns (r: Option<Route>)
    ensures r == RouteOf(line)
  {
    var fields := Split(line, ' ');
    var dstaddress: Option<string> := None;
    var gateway: Option<string> := None;
    for i := 0 to |fields|
      invariant dstaddress == LastValue(fields[..i], DstRule)
      invariant gateway == LastValue(fields[..i], GatewayRule)
    {
      assert fields[..i + 1][..i] == fields[..i];
      var kv := KeyVal(fields[i]);
      if kv.Some? {
        var (param, val) := kv.value;
        if param == "dst-address" {
          dstaddress := Some(val);
        } else if param == "gateway" && StartsWith(val, AmprPrefix) {
          gateway := Some(val);
        }
      }
    }
    assert fields[..|fields|] == fields;
    if dstaddress.Some? && dstaddress.value != "" && gateway.Some? && gateway.value != "" {
      r := Some(Route(dstaddress.value, gateway.value));
    } else {
      r := None;
    }
  }

  /** `parse_ros_ipip`: the last prefixed `name` and the last
      `remote-address` winning. */
  method ParseRosIpip(line: string) returns (r: Option<Ipip>)
    ensures r == IpipOf(line)
  {
    var fields := Split(line, ' ');
    var name: Option<string> := None;
    var remoteaddr: Option<string> := None;
    for i := 0 to |fields|
      invariant name == LastValue(fields[..i], NameRule)
      invariant remoteaddr == LastValue(fields[..i], RemoteRule)
    {
      assert fields[..i + 1][..i] == fields[..i];
      var kv := KeyVal(fields[i]);
      if kv.Some? {
        var (param, val) := kv.value;
        if param == "name" && StartsWith(val, AmprPrefix) {
          name := Some(val);
        } else if param == "remote-address" {
          remoteaddr := Some(val);
        }
      }
    }
    assert fields[..|fields|] == fields;
    if name.Some? && name.value != "" && remoteaddr.Some? && remoteaddr.value != "" {
      r := Some(Ipip(name.value, remoteaddr.value));
    } else {
      r := None;
    }
  }

  /** The route a line yields, in terms of its tokens: present exactly when
      the last `dst-address` token has a non-empty value and some `gateway`
      token has a value with the prefix; the route then carries those two
      last values. */
  lemma RouteOfTokens(line: string)
    ensures var fields := Split(line, ' ');
      RouteOf(line).Some? <==>
        (exists j :: 0 <= j < |fields| && Takes(DstRule, fields[j]) && KeyVal(fields[j]).value.1 != ""
           && forall k :: j < k < |fields| ==> !Takes(DstRule, fields[k]))
        && (exists j :: 0 <= j < |fields| && Takes(GatewayRule, fields[j]))
    ensures RouteOf(line).Some? ==>
      var fields := Split(line, ' ');
      StartsWith(RouteOf(line).value.gateway, AmprPrefix)
      && (exists j :: 0 <= j < |fields| && Takes(DstRule, fields[j])
            && KeyVal(fields[j]).value.1 == RouteOf(line).value.dst
            && forall k :: j < k < |fields| ==> !Takes(DstRule, fields[k]))
      && (exists j :: 0 <= j < |fields| && Takes(GatewayRule, fields[j])
            && KeyVal(fields[j]).value.1 == RouteOf(line).value.gateway
            && forall k :: j < k < |fields| ==> !Takes(GatewayRule, fields[k]))
  {
    var fields := Split(line, ' ');
    LastValueIsLastTaken(fields, DstRule);
    LastValueIsLastTaken(fields, GatewayRule);
    LastTakenUnique(fields, DstRule);
    GatewayValueNonEmpty(fields);
  }

  /** At most one field is the last one a rule takes, so it carries the
      value `LastValue` reports. */
  lemma LastTakenUnique(fields: seq<string>, rule: FieldRule)
    ensures forall j :: 0 <= j < |fields| && Takes(rule, fields[j])
                        && (forall k :: j < k < |fields| ==> !Takes(rule, fields[k]))
                        ==> LastValue(fields, rule) == Some(KeyVal(fields[j]).value.1)
  {
    LastValueIsLastTaken(fields, rule);
  }

  /** A prefixed gateway value is never empty, so `gateway`'s truth test in
      the source is implied by the prefix test. */
  lemma GatewayValueNonEmpty(fields: seq<string>)
    ensures LastValue(fields, GatewayRule).Some? ==> LastValue(fields, GatewayRule).value != ""
  {
    LastValueIsLastTaken(fields, GatewayRule);
  }

  /** The tunnel a line yields, in terms of its tokens: present exactly when
      some `name` token has a prefixed value and the last `remote-address`
      token has a non-empty value. */
  lemma IpipOfTokens(line: string)
    ensures var fields := Split(line, ' ');
      IpipOf(line).Some? <==>
        (exists j :: 0 <= j < |fields| && Takes(NameRule, fields[j]))
        && (exists j :: 0 <= j < |fields| && Takes(RemoteRule, fields[j]) && KeyVal(fields[j]).value.1 != ""
              && forall k :: j < k < |fields| ==> !Takes(RemoteRule, fields[k]))
    ensures IpipOf(line).Some? ==>
      var fields := Split(line, ' ');
      StartsWith(IpipOf(line).value.name, AmprPrefix)
      && (exists j :: 0 <= j < |fields| && Takes(NameRule, fields[j])
            && KeyVal(fields[j]).value.1 == IpipOf(line).value.name
            && forall k :: j < k < |fields| ==> !Takes(NameRule, fields[k]))
      && (exists j :: 0 <= j < |fields| && Takes(RemoteRule, fields[j])
            && KeyVal(fields[j]).value.1 == IpipOf(line).value.remote
            && forall k :: j < k < |fields| ==> !Takes(RemoteRule, fields[k]))
  {
    var fields := Split(line, ' ');
    LastValueIsLastTaken(fields, NameRule);
    LastValueIsLastTaken(fields, RemoteRule);
    LastTakenUnique(fields, RemoteRule);
  }

  /* ---------- Whole exports ---------- */

  /** `filter(None, map(parse_ros_route, lines))`: the routes the lines
      yield, in order. */
  function ParsedRoutes(lines: seq<string>): (routes: seq<Route>)
    ensures forall r :: r in routes <==> exists i :: 0 <= i < |lines| && RouteOf(lines[i]) == Some(r)
    ensures |routes| <= |lines|
  {
    if lines == [] then []
    else
      var init := lines[..|lines| - 1];
      var prefix := ParsedRoutes(init);
      assert forall i :: 0 <= i < |init| ==> init[i] == lines[i];
      match RouteOf(lines[|lines| - 1])
      case Some(r) => prefix + [r]
      case None => prefix
  }

  /** `filter(None, map(parse_ros_ipip, lines))`. */
  function ParsedIpips(lines: seq<string>): (ipips: seq<Ipip>)
    ensures forall t :: t in ipips <==> exists i :: 0 <= i < |lines| && IpipOf(lines[i]) == Some(t)
    ensures |ipips| <= |lines|
  {
    if lines == [] then []
    else
      var init := lines[..|lines| - 1];
      var prefix := ParsedIpips(init);
      assert forall i :: 0 <= i < |init| ==> init[i] == lines[i];
      match IpipOf(lines[|lines| - 1])
      case Some(t) => prefix + [t]
      case None => prefix
  }

  /** `export_ros_routes`, taking the text of `/ip route export`. */
  method ExportRosRoutes(exportText: string) returns (routes: seq<Route>)
    ensures routes == ParsedRoutes(ExportLines(exportText))
  {
    var lines := ExportLines(exportText);
    routes := [];
    for i := 0 to |lines|
      invariant routes == ParsedRoutes(lines[..i])
    {
      assert lines[..i + 1][..i] == lines[..i];
      var r := ParseRosRoute(lines[i]);
      if r.Some? {
        routes := routes + [r.value];
      }
    }
    assert lines[..|lines|] == lines;
  }

  /** `export_ros_ipip_interfaces`, taking the text of `/interface ipip export`. */
  method ExportRosIpips(exportText: string) returns (ipips: seq<Ipip>)
    ensures ipips == ParsedIpips(ExportLines(exportText))
  {
    var lines := ExportLines(exportText);
    ipips := [];
    for i := 0 to |lines|
      invariant ipips == ParsedIpips(lines[..i])
    {
      assert lines[..i + 1][..i] == lines[..i];
      var t := ParseRosIpip(lines[i]);
      if t.Some? {
        ipips := ipips + [t.value];
      }
    }
    assert lines[..|lines|] == lines;
  }

  /* ---------- The continuation example ---------- */

  /** A token value as the route example uses it: no separator, no
      backslash and no line break. */
  predicate PlainValue(v: string) {
    ' ' !in v && '=' !in v && '\\' !in v && NoLineBreak(v)
  }

  /** The route line "dst-address=D gateway=G", with the break after the
      space wrapped by a continuation when `wrapped` holds. */
  function RouteLine(dst: string, gw: string, wrapped: bool): string {
    "dst-address=" + dst + " " + (if wrapped then Continuation else "") + "gateway=" + gw
  }

  lemma NoLineBreakAppend(a: string, b: string)
    requires NoLineBreak(a) && NoLineBreak(b)
    ensures NoLineBreak(a + b)
  {
    assert forall i :: |a| <= i < |a + b| ==> (a + b)[i] == b[i - |a|];
  }

  lemma KeysHaveNoLineBreak()
    ensures NoLineBreak("dst-address=") && NoLineBreak(" ") && NoLineBreak("gateway=")
  {
  }

  /** Wrapped or not, the route line is read as the same single line. */
  lemma RouteLineIsOneLine(dst: string, gw: string)
    requires PlainValue(dst) && PlainValue(gw)
    ensures ExportLines(RouteLine(dst, gw, true)) == ExportLines(RouteLine(dst, gw, false)) == [RouteLine(dst, gw, false)]
  {
    var a := "dst-address=" + dst + " ";
    var b := "gateway=" + gw;
    var line := RouteLine(dst, gw, false);
    assert line == a + b;
    assert RouteLine(dst, gw, true) == a + Continuation + b;
    assert '\\' !in a;
    assert '\\' !in b;
    assert '\\' !in line;
    ContinuationJoinsLines(a, b);
    CollapseNoBackslash(line);
    KeysHaveNoLineBreak();
    NoLineBreakAppend("dst-address=", dst);
    NoLineBreakAppend("dst-address=" + dst, " ");
    NoLineBreakAppend("gateway=", gw);
    NoLineBreakAppend(a, b);
    OneLine(line);
  }

  /** The route line yields the route its two tokens name. */
  lemma RouteLineParses(dst: string, gw: string)
    requires PlainValue(dst) && PlainValue(gw) && dst != "" && StartsWith(gw, AmprPrefix)
    ensures RouteOf(RouteLine(dst, gw, false)) == Some(Route(dst, gw))
  {
    var dstToken := "dst-address=" + dst;
    var gwToken := "gateway=" + gw;
    var line := RouteLine(dst, gw, false);
    assert line == dstToken + [' '] + gwToken;
    assert ' ' !in "dst-address=" && ' ' !in "gateway=";
    assert ' ' !in dstToken && ' ' !in gwToken;
    SplitAt(dstToken, ' ', gwToken);
    SplitNoSeparator(dstToken, ' ');
    SplitNoSeparator(gwToken, ' ');
    var fields := Split(line, ' ');
    assert fields == [dstToken, gwToken];
    assert dstToken == "dst-address" + "=" + dst;
    assert gwToken == "gateway" + "=" + gw;
    KeyValOfPair("dst-address", dst);
    KeyValOfPair("gateway", gw);
    assert Takes(GatewayRule, gwToken);
    assert !Takes(DstRule, gwToken);
    assert Takes(DstRule, dstToken);
    assert fields[..1] == [dstToken];
    assert LastValue(fields, DstRule) == Some(dst);
    assert LastValue(fields, GatewayRule) == Some(gw);
  }

  /** A route line wrapped by a continuation parses to the same single route
      as the line written out in one piece. */
  lemma WrappedRouteLine(dst: string, gw: string)
    requires PlainValue(dst) && PlainValue(gw) && dst != "" && StartsWith(gw, AmprPrefix)
    ensures ParsedRoutes(ExportLines(RouteLine(dst, gw, true)))
         == ParsedRoutes(ExportLines(RouteLine(dst, gw, false)))
         == [Route(dst, gw)]
  {
    RouteLineIsOneLine(dst, gw);
    RouteLineParses(dst, gw);
    assert [RouteLine(dst, gw, false)][..0] == [];
  }

  /** The documented instance: "dst-address=44.1.2.0/24 \\<CR><LF>    gateway=ampr-9.9.9.9". */
  lemma WrappedRouteExample()
    ensures ParsedRoutes(ExportLines(RouteLine("44.1.2.0/24", "ampr-9.9.9.9", true)))
         == [Route("44.1.2.0/24", "ampr-9.9.9.9")]
  {
    assert PlainValue("44.1.2.0/24");
    assert PlainValue("ampr-9.9.9.9");
    assert StartsWith("ampr-9.9.9.9", AmprPrefix);
    WrappedRouteLine("44.1.2.0/24", "ampr-9.9.9.9");
  }
}
