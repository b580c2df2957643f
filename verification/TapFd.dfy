/** The TAPFD text formats: the metadata line sent beside a tap descriptor, the OK
    prefix and the error line of socket providers. Text is modelled as code points. */
module TapFd {
  import opened Wire

  const MAX_PAYLOAD: nat := 512
  const NUL: char := '\0'

  /** White space as the standard tokenizer understands it. */
  predicate IsSpace(c: char) {
    var x := c as int;
    || 9 <= x <= 13 || x == 0x20 || x == 0x85 || x == 0xa0 || x == 0x1680
    || 0x2000 <= x <= 0x200a || x == 0x2028 || x == 0x2029 || x == 0x202f || x == 0x205f || x == 0x3000
  }

  /** Length on the wire, in UTF-8 bytes. */
  function ByteLen(s: string): nat {
    if s == [] then 0 else ByteLen(s[..|s| - 1]) + CharLen(s[|s| - 1])
  }

  function CharLen(c: char): nat {
    var x := c as int;
    if x < 0x80 then 1 else if x < 0x800 then 2 else if x < 0x1_0000 then 3 else 4
  }

  // ------------------------------------------------------------------------ tokens

  predicate IsWord(s: string) {
    s != [] && forall i :: 0 <= i < |s| ==> !IsSpace(s[i])
  }

  function WordLen(s: string): (n: nat)
    ensures n <= |s|
    ensures forall i :: 0 <= i < n ==> !IsSpace(s[i])
    ensures n < |s| ==> IsSpace(s[n])
  {
    if s == [] || IsSpace(s[0]) then 0 else 1 + WordLen(s[1..])
  }

  /** Splits around runs of white space. */
  function Fields(s: string): seq<string>
    decreases |s|
  {
    if s == [] then []
    else if IsSpace(s[0]) then Fields(s[1..])
    else [s[..WordLen(s)]] + Fields(s[WordLen(s)..])
  }

  function Joined(words: seq<string>): string {
    if words == [] then ""
    else if |words| == 1 then words[0]
    else words[0] + " " + Joined(words[1..])
  }

  lemma {:induction false} WordLenIs(w: string, rest: string)
    requires IsWord(w) && (rest == [] || IsSpace(rest[0]))
    ensures WordLen(w + rest) == |w|
  {
    assert (w + rest)[1..] == w[1..] + rest;
    if |w| > 1 {
      WordLenIs(w[1..], rest);
    } else {
      assert w[1..] + rest == rest;
    }
  }

  lemma FieldsFront(w: string, rest: string)
    requires IsWord(w) && (rest == [] || IsSpace(rest[0]))
    ensures Fields(w + rest) == [w] + Fields(rest)
  {
    WordLenIs(w, rest);
    var s := w + rest;
    assert s[0] == w[0] && s[..|w|] == w && s[|w|..] == rest;
  }

  /** Splitting undoes joining. */
  lemma {:induction false} FieldsOfJoined(words: seq<string>)
    requires forall i :: 0 <= i < |words| ==> IsWord(words[i])
    ensures Fields(Joined(words)) == words
  {
    if |words| == 1 {
      FieldsFront(words[0], "");
      assert words[0] + "" == words[0];
    } else if |words| > 1 {
      FieldsSpaced(words[0], Joined(words[1..]));
      FieldsOfJoined(words[1..]);
    }
  }

  lemma FieldsSpaced(w: string, t: string)
    requires IsWord(w)
    ensures Fields(w + " " + t) == [w] + Fields(t)
  {
    var rest := " " + t;
    FieldsFront(w, rest);
    assert rest[1..] == t;
    assert w + " " + t == w + rest;
  }

  /** Every token is a word. */
  lemma {:induction false} FieldsAreWords(s: string)
    ensures forall i :: 0 <= i < |Fields(s)| ==> IsWord(Fields(s)[i])
    decreases |s|
  {
    if s != [] {
      if IsSpace(s[0]) {
        FieldsAreWords(s[1..]);
      } else {
        FieldsAreWords(s[WordLen(s)..]);
      }
    }
  }

  function Index(s: string, c: char): (n: nat)
    ensures n <= |s|
    ensures forall i :: 0 <= i < n ==> s[i] != c
    ensures n < |s| ==> s[n] == c
  {
    if s == [] || s[0] == c then 0 else 1 + Index(s[1..], c)
  }

  lemma {:induction false} IndexIs(s: string, c: char, rest: string)
    requires c !in s
    ensures Index(s + [c] + rest, c) == |s|
  {
    var t := s + [c] + rest;
    if s != [] {
      assert t[0] == s[0] && t[1..] == s[1..] + [c] + rest;
      IndexIs(s[1..], c, rest);
    }
  }

  // ----------------------------------------------------------------------- numbers

  function Digit(d: nat): char
    requires d < 10
  {
    '0' + d as char
  }

  predicate IsDigit(c: char) {
    '0' <= c <= '9'
  }

  function Decimal(n: nat): (s: string)
    ensures s != [] && forall i :: 0 <= i < |s| ==> IsDigit(s[i])
  {
    if n < 10 then [Digit(n)] else Decimal(n / 10) + [Digit(n % 10)]
  }

  predicate AllDigits(s: string) {
    forall i :: 0 <= i < |s| ==> IsDigit(s[i])
  }

  function Value(s: string): nat
    requires AllDigits(s)
  {
    if s == [] then 0 else Value(s[..|s| - 1]) * 10 + (s[|s| - 1] as int - '0' as int)
  }

  function ParseUint(s: string, max: nat): Option<nat> {
    if s == [] || !AllDigits(s) then None
    else if Value(s) > max then None
    else Some(Value(s))
  }

  /** Decimal numbers have the value they are for, and no leading zero. */
  lemma {:induction false} ValueOfDecimal(n: nat)
    ensures Value(Decimal(n)) == n
    ensures Decimal(n)[0] == '0' <==> n == 0
    ensures n < 10 ==> |Decimal(n)| == 1
  {
    if n >= 10 {
      ValueOfDecimal(n / 10);
      assert Decimal(n)[..|Decimal(n)| - 1] == Decimal(n / 10);
    }
  }

  // ---------------------------------------------------------------------- metadata

  datatype Meta = Meta(port: u32, mac: string, ip: string, fds: u8, netns: u8)

  datatype MarshalError = NoMac | NoIp | NoFds | TooLong(length: nat)

  function Words(m: Meta): seq<string> {
    ["port=" + Decimal(m.port), "mac=" + m.mac, "ip=" + m.ip, "fd=" + Decimal(m.fds)]
    + if m.netns > 0 then ["netns_fd=" + Decimal(m.netns)] else []
  }

  function Encoded(m: Meta): string {
    Joined(Words(m)) + [NUL]
  }

  /** The line itself; the count of netns descriptors is left out where it is zero. */
  lemma EncodedText(m: Meta)
    ensures Encoded(m) == "port=" + Decimal(m.port) + " " + ("mac=" + m.mac) + " " + ("ip=" + m.ip) + " "
                          + ("fd=" + Decimal(m.fds)) + (if m.netns > 0 then " " + ("netns_fd=" + Decimal(m.netns)) else "") + [NUL]
  {
    var a, b, c, d := "port=" + Decimal(m.port), "mac=" + m.mac, "ip=" + m.ip, "fd=" + Decimal(m.fds);
    JoinedSnoc([a], b);
    JoinedSnoc([a, b], c);
    JoinedSnoc([a, b, c], d);
    assert [a] + [b] == [a, b] && [a, b] + [c] == [a, b, c] && [a, b, c] + [d] == [a, b, c, d];
    var line := a + " " + b + " " + c + " " + d;
    if m.netns > 0 {
      var e := "netns_fd=" + Decimal(m.netns);
      JoinedSnoc([a, b, c, d], e);
      assert Words(m) == [a, b, c, d] + [e];
      assert line + " " + e == line + (" " + e);
    } else {
      assert Words(m) == [a, b, c, d];
      assert line + "" == line;
    }
  }

  /** Writes the line into a buffer, piece by piece. */
  method Marshal(m: Meta) returns (r: Result<string, MarshalError>)
    ensures r.Ok? <==> m.mac != "" && m.ip != "" && m.fds > 0 && ByteLen(Encoded(m)) <= MAX_PAYLOAD
    ensures r.Ok? ==> r.value == Encoded(m)
    ensures m.mac == "" ==> r == Err(NoMac)
    ensures m.mac != "" && m.ip == "" ==> r == Err(NoIp)
    ensures m.mac != "" && m.ip != "" && m.fds == 0 ==> r == Err(NoFds)
    ensures r.Err? && r.error.TooLong? ==> r.error.length == ByteLen(Encoded(m)) > MAX_PAYLOAD
  {
    if m.mac == "" {
      return Err(NoMac);
    }
    if m.ip == "" {
      return Err(NoIp);
    }
    if m.fds == 0 {
      return Err(NoFds);
    }
    var b := "port=" + Decimal(m.port);
    ghost var words := [b];
    JoinedSnoc(words, "mac=" + m.mac);
    b, words := b + " " + ("mac=" + m.mac), words + ["mac=" + m.mac];
    JoinedSnoc(words, "ip=" + m.ip);
    b, words := b + " " + ("ip=" + m.ip), words + ["ip=" + m.ip];
    JoinedSnoc(words, "fd=" + Decimal(m.fds));
    b, words := b + " " + ("fd=" + Decimal(m.fds)), words + ["fd=" + Decimal(m.fds)];
    if m.netns > 0 {
      JoinedSnoc(words, "netns_fd=" + Decimal(m.netns));
      b, words := b + " " + ("netns_fd=" + Decimal(m.netns)), words + ["netns_fd=" + Decimal(m.netns)];
    }
    assert words == Words(m);
    b := b + [NUL];
    if ByteLen(b) > MAX_PAYLOAD {
      return Err(TooLong(ByteLen(b)));
    }
    return Ok(b);
  }

  lemma {:induction false} JoinedSnoc(words: seq<string>, w: string)
    requires words != []
    ensures Joined(words + [w]) == Joined(words) + " " + w
  {
    var all := words + [w];
    if |words| == 1 {
      assert all[1..] == [w];
    } else {
      assert all[1..] == words[1..] + [w];
      JoinedSnoc(words[1..], w);
      assert words[0] + " " + (Joined(words[1..]) + " " + w) == words[0] + " " + Joined(words[1..]) + " " + w;
    }
  }

  /** What a line without the terminator says; the last of several equal keys counts. */
  function Cut(token: string): Option<(string, string)> {
    var n := Index(token, '=');
    if n < |token| then Some((token[..n], token[n + 1..])) else None
  }

  datatype ParseError = Malformed(token: string) | BadNumber(key: string, text: string)

  function Apply(m: Meta, token: string): Result<Meta, ParseError> {
    match Cut(token)
    case None => Err(Malformed(token))
    case Some((key, val)) =>
      if key == "port" then
        var v := ParseUint(val, 0xffff_ffff);
        if v.Some? then Ok(m.(port := v.value)) else Err(BadNumber(key, val))
      else if key == "mac" then Ok(m.(mac := val))
      else if key == "ip" then Ok(m.(ip := val))
      else if key == "fd" then
        var v := ParseUint(val, 0xff);
        if v.Some? then Ok(m.(fds := v.value)) else Err(BadNumber(key, val))
      else if key == "netns_fd" then
        var v := ParseUint(val, 0xff);
        if v.Some? then Ok(m.(netns := v.value)) else Err(BadNumber(key, val))
      else Ok(m)
  }

  const EMPTY: Meta := Meta(0, "", "", 0, 0)

  function ApplyAll(m: Meta, tokens: seq<string>): Result<Meta, ParseError>
    decreases |tokens|
  {
    if tokens == [] then Ok(m)
    else match Apply(m, tokens[0])
         case Err(e) => Err(e)
         case Ok(next) => ApplyAll(next, tokens[1..])
  }

  function BeforeNul(s: string): string {
    s[..Index(s, NUL)]
  }

  function Parsed(s: string): Result<Meta, ParseError> {
    ApplyAll(EMPTY, Fields(BeforeNul(s)))
  }

  /** Updates the record token by token and stops at the first bad one. */
  method ParsePayload(buf: string) returns (r: Result<Meta, ParseError>)
    ensures r == Parsed(buf)
  {
    var tokens := Fields(BeforeNul(buf));
    var m := EMPTY;
    for i := 0 to |tokens|
      invariant ApplyAll(EMPTY, tokens) == ApplyAll(m, tokens[i..])
    {
      assert tokens[i..][1..] == tokens[i + 1..];
      var step := Apply(m, tokens[i]);
      if step.Err? {
        return Err(step.error);
      }
      m := step.value;
    }
    return Ok(m);
  }

  /** The value of the last token with this key. */
  function LastValue(tokens: seq<string>, key: string): Option<string> {
    if tokens == [] then None
    else match Cut(tokens[|tokens| - 1])
         case Some((k, val)) => if k == key then Some(val) else LastValue(tokens[..|tokens| - 1], key)
         case None => LastValue(tokens[..|tokens| - 1], key)
  }

  /** The token is a pair, and a number where its key wants one. */
  predicate Readable(token: string) {
    match Cut(token)
    case None => false
    case Some((key, val)) =>
      && (key == "port" ==> ParseUint(val, 0xffff_ffff).Some?)
      && (key == "fd" || key == "netns_fd" ==> ParseUint(val, 0xff).Some?)
  }

  function TextOr(o: Option<string>, text: string): string {
    match o case Some(s) => s case None => text
  }

  function NumberOr(o: Option<string>, max: nat, n: nat): nat {
    if o.Some? && ParseUint(o.value, max).Some? then ParseUint(o.value, max).value else n
  }

  /** The record that the tokens describe. */
  ghost predicate Describes(tokens: seq<string>, m: Meta, r: Meta) {
    && r.port == NumberOr(LastValue(tokens, "port"), 0xffff_ffff, m.port)
    && r.mac == TextOr(LastValue(tokens, "mac"), m.mac)
    && r.ip == TextOr(LastValue(tokens, "ip"), m.ip)
    && r.fds == NumberOr(LastValue(tokens, "fd"), 0xff, m.fds)
    && r.netns == NumberOr(LastValue(tokens, "netns_fd"), 0xff, m.netns)
  }

  lemma {:induction false} ApplyAllSnoc(m: Meta, tokens: seq<string>, w: string)
    ensures ApplyAll(m, tokens + [w]) ==
            (match ApplyAll(m, tokens) case Err(e) => Err(e) case Ok(next) => Apply(next, w))
    decreases |tokens|
  {
    var all := tokens + [w];
    if tokens == [] {
      assert all[1..] == [];
    } else {
      assert all[0] == tokens[0] && all[1..] == tokens[1..] + [w];
      var step := Apply(m, tokens[0]);
      if step.Ok? {
        ApplyAllSnoc(step.value, tokens[1..], w);
      }
    }
  }

  /** The value of this key once the token is read. */
  function Newer(w: string, key: string, o: Option<string>): Option<string> {
    match Cut(w)
    case Some((k, val)) => if k == key then Some(val) else o
    case None => o
  }

  lemma LastValueSnoc(tokens: seq<string>, w: string, key: string)
    ensures LastValue(tokens + [w], key) == Newer(w, key, LastValue(tokens, key))
  {
    var all := tokens + [w];
    assert all[|all| - 1] == w && all[..|all| - 1] == tokens;
  }

  lemma KeysDiffer()
    ensures "ip" != "fd" && "mac" != "ip" && "mac" != "fd" && "port" != "mac" && "port" != "ip" && "port" != "fd"
    ensures "netns_fd" != "port" && "netns_fd" != "mac" && "netns_fd" != "ip" && "netns_fd" != "fd"
  {
    assert "ip"[0] != "fd"[0];
  }

  lemma TextsRead(n: Meta, w: string)
    requires Apply(n, w).Ok?
    ensures Apply(n, w).value.mac == TextOr(Newer(w, "mac", None), n.mac)
    ensures Apply(n, w).value.ip == TextOr(Newer(w, "ip", None), n.ip)
  {
    KeysDiffer();
  }

  lemma NumbersRead(n: Meta, w: string)
    requires Apply(n, w).Ok?
    ensures Apply(n, w).value.port == NumberOr(Newer(w, "port", None), 0xffff_ffff, n.port)
    ensures Apply(n, w).value.fds == NumberOr(Newer(w, "fd", None), 0xff, n.fds)
    ensures Apply(n, w).value.netns == NumberOr(Newer(w, "netns_fd", None), 0xff, n.netns)
    ensures Newer(w, "port", None).Some? ==> ParseUint(Newer(w, "port", None).value, 0xffff_ffff).Some?
    ensures Newer(w, "fd", None).Some? ==> ParseUint(Newer(w, "fd", None).value, 0xff).Some?
    ensures Newer(w, "netns_fd", None).Some? ==> ParseUint(Newer(w, "netns_fd", None).value, 0xff).Some?
  {
    KeysDiffer();
  }

  lemma NewerText(w: string, key: string, o: Option<string>, text: string)
    ensures TextOr(Newer(w, key, o), text) == TextOr(Newer(w, key, None), TextOr(o, text))
  {
  }

  lemma NewerNumber(w: string, key: string, o: Option<string>, max: nat, n: nat)
    requires Newer(w, key, None).Some? ==> ParseUint(Newer(w, key, None).value, max).Some?
    ensures NumberOr(Newer(w, key, o), max, n) == NumberOr(Newer(w, key, None), max, NumberOr(o, max, n))
  {
  }

  lemma TextsSnoc(tokens: seq<string>, w: string, m: Meta, n: Meta)
    requires Describes(tokens, m, n) && Apply(n, w).Ok?
    ensures var r := Apply(n, w).value;
            && r.mac == TextOr(LastValue(tokens + [w], "mac"), m.mac)
            && r.ip == TextOr(LastValue(tokens + [w], "ip"), m.ip)
  {
    TextsRead(n, w);
    LastValueSnoc(tokens, w, "mac");
    LastValueSnoc(tokens, w, "ip");
    NewerText(w, "mac", LastValue(tokens, "mac"), m.mac);
    NewerText(w, "ip", LastValue(tokens, "ip"), m.ip);
  }

  lemma NumbersSnoc(tokens: seq<string>, w: string, m: Meta, n: Meta)
    requires Describes(tokens, m, n) && Apply(n, w).Ok?
    ensures var r := Apply(n, w).value;
            && r.port == NumberOr(LastValue(tokens + [w], "port"), 0xffff_ffff, m.port)
            && r.fds == NumberOr(LastValue(tokens + [w], "fd"), 0xff, m.fds)
            && r.netns == NumberOr(LastValue(tokens + [w], "netns_fd"), 0xff, m.netns)
  {
    NumbersRead(n, w);
    LastValueSnoc(tokens, w, "port");
    LastValueSnoc(tokens, w, "fd");
    LastValueSnoc(tokens, w, "netns_fd");
    NewerNumber(w, "port", LastValue(tokens, "port"), 0xffff_ffff, m.port);
    NewerNumber(w, "fd", LastValue(tokens, "fd"), 0xff, m.fds);
    NewerNumber(w, "netns_fd", LastValue(tokens, "netns_fd"), 0xff, m.netns);
  }

  lemma ReadableExact(m: Meta, w: string)
    ensures Apply(m, w).Ok? <==> Readable(w)
  {
  }

  predicate AllReadable(tokens: seq<string>) {
    forall i :: 0 <= i < |tokens| ==> Readable(tokens[i])
  }

  lemma AllReadableSnoc(tokens: seq<string>, w: string)
    ensures AllReadable(tokens + [w]) <==> AllReadable(tokens) && Readable(w)
  {
    var all := tokens + [w];
    if AllReadable(all) {
      assert Readable(all[|tokens|]);
      forall i | 0 <= i < |tokens| ensures Readable(tokens[i]) {
        assert all[i] == tokens[i];
      }
    }
  }

  /** A list of tokens is read exactly if each is a pair whose value is a number in range
      where its key wants one; each field is then the value of the last token with its key,
      and a key that is not known says nothing. */
  lemma {:induction false} ReadExactly(m: Meta, tokens: seq<string>)
    ensures ApplyAll(m, tokens).Ok? <==> AllReadable(tokens)
    ensures ApplyAll(m, tokens).Ok? ==> Describes(tokens, m, ApplyAll(m, tokens).value)
    decreases |tokens|
  {
    if tokens != [] {
      var front, w := tokens[..|tokens| - 1], tokens[|tokens| - 1];
      assert front + [w] == tokens;
      ReadExactly(m, front);
      ApplyAllSnoc(m, front, w);
      AllReadableSnoc(front, w);
      var before := ApplyAll(m, front);
      if before.Ok? {
        ReadableExact(before.value, w);
        if Readable(w) {
          TextsSnoc(front, w, m, before.value);
          NumbersSnoc(front, w, m, before.value);
        }
      }
    }
  }

  /** A payload is read exactly if all its tokens are readable, and says what they say. */
  lemma ParsedExactly(s: string)
    ensures Parsed(s).Ok? <==> AllReadable(Fields(BeforeNul(s)))
    ensures Parsed(s).Ok? ==> Describes(Fields(BeforeNul(s)), EMPTY, Parsed(s).value)
  {
    ReadExactly(EMPTY, Fields(BeforeNul(s)));
  }

  /** A token with an unknown key changes no result, wherever it stands. */
  lemma {:induction false} UnknownKeyIgnored(m: Meta, before: seq<string>, token: string, after: seq<string>)
    requires Cut(token).Some? && Cut(token).value.0 !in ["port", "mac", "ip", "fd", "netns_fd"]
    ensures ApplyAll(m, before + [token] + after) == ApplyAll(m, before + after)
    decreases |before|
  {
    var all := before + [token] + after;
    if before == [] {
      assert all == [token] + after && before + after == after;
      assert all[1..] == after;
    } else {
      assert all[0] == before[0] && all[1..] == before[1..] + [token] + after;
      assert (before + after)[0] == before[0] && (before + after)[1..] == before[1..] + after;
      var step := Apply(m, before[0]);
      if step.Ok? {
        UnknownKeyIgnored(step.value, before[1..], token, after);
      }
    }
  }

  // ------------------------------------------------------------------- round trips

  /** Neither white space nor NUL: what a value must be to travel as one token. */
  predicate Clean(s: string) {
    forall i :: 0 <= i < |s| ==> !IsSpace(s[i]) && s[i] != NUL
  }

  lemma CutIs(key: string, val: string)
    requires '=' !in key
    ensures Cut(key + "=" + val) == Some((key, val))
  {
    IndexIs(key, '=', val);
    var t := key + "=" + val;
    assert t[..|key|] == key && t[|key| + 1..] == val;
  }

  lemma ParsedDecimal(n: nat, max: nat)
    requires n <= max
    ensures ParseUint(Decimal(n), max) == Some(n)
  {
    ValueOfDecimal(n);
  }

  lemma ApplyText(m: Meta, val: string)
    ensures Apply(m, "mac=" + val) == Ok(m.(mac := val)) && Apply(m, "ip=" + val) == Ok(m.(ip := val))
  {
    CutIs("mac", val);
    CutIs("ip", val);
    assert "mac" + "=" + val == "mac=" + val && "ip" + "=" + val == "ip=" + val;
  }

  lemma ApplyPort(m: Meta, n: u32)
    ensures Apply(m, "port=" + Decimal(n)) == Ok(m.(port := n))
  {
    ParsedDecimal(n, 0xffff_ffff);
    PortRead(m, n, Decimal(n));
  }

  lemma PortRead(m: Meta, n: u32, val: string)
    requires ParseUint(val, 0xffff_ffff) == Some(n)
    ensures Apply(m, "port=" + val) == Ok(m.(port := n))
  {
    CutIs("port", val);
    assert "port" + "=" + val == "port=" + val;
  }

  lemma ApplyCount(m: Meta, n: u8)
    ensures Apply(m, "fd=" + Decimal(n)) == Ok(m.(fds := n))
    ensures Apply(m, "netns_fd=" + Decimal(n)) == Ok(m.(netns := n))
  {
    ParsedDecimal(n, 0xff);
    CountRead(m, n, Decimal(n));
    NetnsRead(m, n, Decimal(n));
  }

  lemma CountRead(m: Meta, n: u8, val: string)
    requires ParseUint(val, 0xff) == Some(n)
    ensures Apply(m, "fd=" + val) == Ok(m.(fds := n))
  {
    CutIs("fd", val);
    assert "fd" + "=" + val == "fd=" + val;
    KeysDiffer();
  }

  lemma NetnsRead(m: Meta, n: u8, val: string)
    requires ParseUint(val, 0xff) == Some(n)
    ensures Apply(m, "netns_fd=" + val) == Ok(m.(netns := n))
  {
    CutIs("netns_fd", val);
    assert "netns_fd" + "=" + val == "netns_fd=" + val;
    KeysDiffer();
  }

  lemma ApplyCons(m: Meta, w: string, rest: seq<string>, next: Meta)
    requires Apply(m, w) == Ok(next)
    ensures ApplyAll(m, [w] + rest) == ApplyAll(next, rest)
  {
    assert ([w] + rest)[1..] == rest;
  }

  /** Reading the words of a record puts every field back. */
  lemma WordsApply(m: Meta)
    ensures ApplyAll(EMPTY, Words(m)) == Ok(m)
  {
    var a, b, c, d := "port=" + Decimal(m.port), "mac=" + m.mac, "ip=" + m.ip, "fd=" + Decimal(m.fds);
    var tail := if m.netns > 0 then ["netns_fd=" + Decimal(m.netns)] else [];
    var m1 := EMPTY.(port := m.port);
    var m2 := m1.(mac := m.mac);
    var m3 := m2.(ip := m.ip);
    var m4 := m3.(fds := m.fds);
    ApplyPort(EMPTY, m.port);
    ApplyText(m1, m.mac);
    ApplyText(m2, m.ip);
    ApplyCount(m3, m.fds);
    ApplyCount(m4, m.netns);
    FourFirst(EMPTY, a, b, c, d, tail, m1, m2, m3, m4);
    if m.netns > 0 {
      ApplyCons(m4, tail[0], [], m);
      assert tail == [tail[0]] + [];
    }
  }

  lemma FourFirst(m: Meta, a: string, b: string, c: string, d: string, tail: seq<string>,
                  m1: Meta, m2: Meta, m3: Meta, m4: Meta)
    requires Apply(m, a) == Ok(m1) && Apply(m1, b) == Ok(m2) && Apply(m2, c) == Ok(m3) && Apply(m3, d) == Ok(m4)
    ensures ApplyAll(m, [a, b, c, d] + tail) == ApplyAll(m4, tail)
  {
    ApplyCons(m, a, [b, c, d] + tail, m1);
    ApplyCons(m1, b, [c, d] + tail, m2);
    ApplyCons(m2, c, [d] + tail, m3);
    ApplyCons(m3, d, tail, m4);
    assert [a, b, c, d] + tail == [a] + ([b, c, d] + tail);
    assert [b, c, d] + tail == [b] + ([c, d] + tail);
    assert [c, d] + tail == [c] + ([d] + tail);
  }

  lemma CleanWord(key: string, val: string)
    requires Clean(key) && Clean(val)
    ensures Clean(key + "=" + val) && IsWord(key + "=" + val)
  {
    var w := key + "=" + val;
    forall i | 0 <= i < |w| ensures !IsSpace(w[i]) && w[i] != NUL {
      assert w[i] == if i < |key| then key[i] else if i == |key| then '=' else val[i - |key| - 1];
    }
  }

  lemma WordsAreClean(m: Meta)
    requires Clean(m.mac) && Clean(m.ip)
    ensures forall i :: 0 <= i < |Words(m)| ==> IsWord(Words(m)[i]) && Clean(Words(m)[i])
  {
    CleanWord("port", Decimal(m.port));
    CleanWord("mac", m.mac);
    CleanWord("ip", m.ip);
    CleanWord("fd", Decimal(m.fds));
    CleanWord("netns_fd", Decimal(m.netns));
    assert "port=" == "port" + "=" && "mac=" == "mac" + "=" && "ip=" == "ip" + "=" && "fd=" == "fd" + "=";
    assert "netns_fd=" == "netns_fd" + "=";
  }

  lemma {:induction false} JoinedHasNoNul(words: seq<string>)
    requires forall i :: 0 <= i < |words| ==> Clean(words[i])
    ensures NUL !in Joined(words)
  {
    if |words| > 1 {
      JoinedHasNoNul(words[1..]);
    }
  }

  lemma RoundTrip(m: Meta)
    requires Clean(m.mac) && Clean(m.ip)
    ensures Parsed(Encoded(m)) == Ok(m)
  {
    WordsAreClean(m);
    JoinedHasNoNul(Words(m));
    IndexIs(Joined(Words(m)), NUL, "");
    assert Joined(Words(m)) + [NUL] + "" == Encoded(m);
    FieldsOfJoined(Words(m));
    WordsApply(m);
  }

  lemma {:induction false} FieldsLack(s: string, c: char)
    requires c !in s
    ensures forall i :: 0 <= i < |Fields(s)| ==> c !in Fields(s)[i]
    decreases |s|
  {
    if s != [] {
      if IsSpace(s[0]) {
        FieldsLack(s[1..], c);
      } else {
        FieldsLack(s[WordLen(s)..], c);
      }
    }
  }

  lemma {:induction false} ApplyAllClean(m: Meta, tokens: seq<string>)
    requires Clean(m.mac) && Clean(m.ip) && forall i :: 0 <= i < |tokens| ==> Clean(tokens[i])
    ensures ApplyAll(m, tokens).Ok? ==> Clean(ApplyAll(m, tokens).value.mac) && Clean(ApplyAll(m, tokens).value.ip)
    decreases |tokens|
  {
    if tokens != [] {
      var step := Apply(m, tokens[0]);
      if step.Ok? {
        ApplyAllClean(step.value, tokens[1..]);
      }
    }
  }

  /** Whatever is read, its texts are clean. */
  lemma ParsedIsClean(s: string)
    ensures Parsed(s).Ok? ==> Clean(Parsed(s).value.mac) && Clean(Parsed(s).value.ip)
  {
    var line := BeforeNul(s);
    FieldsAreWords(line);
    FieldsLack(line, NUL);
    forall i | 0 <= i < |Fields(line)| ensures Clean(Fields(line)[i]) {
      assert IsWord(Fields(line)[i]) && NUL !in Fields(line)[i];
    }
    ApplyAllClean(EMPTY, Fields(line));
  }

  // ------------------------------------------------------------------ OK responses

  const OK_PREFIX: string := "TAPFD/1 OK "

  datatype OkError = EmptyPayload | Unterminated | OkTooLong(length: nat)

  function BuildOk(payload: string): Result<string, OkError> {
    if payload == [] then Err(EmptyPayload)
    else if NUL !in payload then Err(Unterminated)
    else if ByteLen(OK_PREFIX) + ByteLen(payload) > MAX_PAYLOAD
    then Err(OkTooLong(ByteLen(OK_PREFIX) + ByteLen(payload)))
    else Ok(OK_PREFIX + payload)
  }

  /** A record gets the prefix exactly if there is room for it. */
  lemma RecordGetsPrefix(m: Meta)
    ensures BuildOk(Encoded(m)).Ok? <==> ByteLen(Encoded(m)) + 11 <= 512
    ensures BuildOk(Encoded(m)).Ok? ==> BuildOk(Encoded(m)).value == "TAPFD/1 OK " + Encoded(m)
  {
    assert Encoded(m)[|Encoded(m)| - 1] == NUL;
    AsciiLen(OK_PREFIX);
  }

  lemma {:induction false} AsciiLen(s: string)
    requires forall i :: 0 <= i < |s| ==> s[i] < '\U{0080}'
    ensures ByteLen(s) == |s|
  {
    if s != [] {
      AsciiLen(s[..|s| - 1]);
    }
  }

  /** None is the error of an empty OK response. */
  function StripOk(payload: string): Option<string> {
    if !(OK_PREFIX <= payload) then Some(payload)
    else if payload[|OK_PREFIX|..] == [] then None
    else Some(payload[|OK_PREFIX|..])
  }

  /** The prefix is taken off where it is, bare payloads stay as they are, and only the
      prefix by itself is an error. */
  lemma StripExact(payload: string)
    ensures StripOk("TAPFD/1 OK " + payload) == if payload == "" then None else Some(payload)
    ensures !("TAPFD/1 OK " <= payload) ==> StripOk(payload) == Some(payload)
  {
    assert (OK_PREFIX + payload)[|OK_PREFIX|..] == payload;
  }

  lemma StripInvertsBuild(payload: string)
    requires BuildOk(payload).Ok?
    ensures StripOk(BuildOk(payload).value) == Some(payload)
  {
    assert (OK_PREFIX + payload)[|OK_PREFIX|..] == payload;
  }

  lemma MetadataIsBare(m: Meta)
    ensures StripOk(Encoded(m)) == Some(Encoded(m))
  {
    var w := Words(m);
    assert Joined(w) == w[0] + " " + Joined(w[1..]);
    assert Encoded(m)[0] == 'p';
    assert OK_PREFIX[0] == 'T';
  }

  /** A record that was marshalled is read back, with or without the OK prefix, exactly if
      its texts have neither white space nor NUL. */
  lemma HandoffExact(m: Meta)
    ensures StripOk(Encoded(m)).Some?
    ensures Parsed(StripOk(Encoded(m)).value) == Ok(m) <==> Clean(m.mac) && Clean(m.ip)
    ensures BuildOk(Encoded(m)).Ok? ==>
              && StripOk(BuildOk(Encoded(m)).value).Some?
              && (Parsed(StripOk(BuildOk(Encoded(m)).value).value) == Ok(m) <==> Clean(m.mac) && Clean(m.ip))
  {
    MetadataIsBare(m);
    if BuildOk(Encoded(m)).Ok? {
      StripInvertsBuild(Encoded(m));
    }
    if Clean(m.mac) && Clean(m.ip) {
      RoundTrip(m);
    }
    ParsedIsClean(Encoded(m));
  }

  // --------------------------------------------------------------- error responses

  function TrimLeft(s: string): string {
    if s == [] || !IsSpace(s[0]) then s else TrimLeft(s[1..])
  }

  function TrimRight(s: string): string {
    if s == [] || !IsSpace(s[|s| - 1]) then s else TrimRight(s[..|s| - 1])
  }

  function Trim(s: string): string {
    TrimRight(TrimLeft(s))
  }

  function Safe(c: char): char {
    if c in ['=', NUL, '\n', '\r', ' ', '\t'] then '_' else c
  }

  function SafeAll(s: string): (r: string)
    ensures |r| == |s| && forall i :: 0 <= i < |s| ==> r[i] == Safe(s[i])
  {
    if s == [] then [] else SafeAll(s[..|s| - 1]) + [Safe(s[|s| - 1])]
  }

  method SanitizeToken(v: string) returns (r: string)
    ensures r == SafeAll(Trim(v))
  {
    var t := Trim(v);
    r := "";
    for i := 0 to |t|
      invariant r == SafeAll(t[..i])
    {
      assert t[..i + 1][..i] == t[..i];
      r := r + [Safe(t[i])];
    }
    assert t[..|t|] == t;
  }

  function Or(s: string, fallback: string): string {
    if s == "" then fallback else s
  }

  const VERSION: string := "TAPFD/1"
  const INTERNAL: string := "PROVIDER_INTERNAL"

  /** The tokens an error line is built from. */
  function CodeOf(code: string): string {
    Or(SafeAll(Trim(code)), INTERNAL)
  }

  function MessageOf(message: string): string {
    Or(SafeAll(Trim(message)), "error")
  }

  function Spaced(a: string, b: string, c: string, d: string): string {
    a + (" " + b) + (" " + c) + (" " + d)
  }

  function ErrorLine(code: string, message: string): string {
    Spaced(VERSION, "ERR", code, message)
  }

  function BuildError(code: string, message: string): string {
    ErrorLine("code=" + CodeOf(code), "message=" + MessageOf(message)) + "\n"
  }

  datatype ErrorReply = NotError | MalformedReply | Provider(code: string, message: string)

  function ReadError(tokens: seq<string>, code: string, message: string): ErrorReply {
    if tokens == [] then Provider(Or(code, INTERNAL), message)
    else
      match Cut(tokens[0])
      case None => MalformedReply
      case Some((key, val)) =>
        if key == "" then MalformedReply
        else ReadError(tokens[1..], if key == "code" then val else code, if key == "message" then val else message)
  }

  function ErrorOf(payload: string): ErrorReply {
    var line := Trim(payload);
    if line == "" || !(VERSION + " ERR" <= line) then NotError
    else
      var tokens := Fields(line);
      if |tokens| < 3 || tokens[0] != VERSION || tokens[1] != "ERR" then MalformedReply
      else ReadError(tokens[2..], "", "")
  }

  method ParseErrorResponse(payload: string) returns (r: ErrorReply)
    ensures r == ErrorOf(payload)
  {
    var line := Trim(payload);
    if line == "" || !(VERSION + " ERR" <= line) {
      return NotError;
    }
    var tokens := Fields(line);
    if |tokens| < 3 || tokens[0] != VERSION || tokens[1] != "ERR" {
      return MalformedReply;
    }
    var code, message := "", "";
    for i := 2 to |tokens|
      invariant ReadError(tokens[2..], "", "") == ReadError(tokens[i..], code, message)
    {
      assert tokens[i..][1..] == tokens[i + 1..];
      var pair := Cut(tokens[i]);
      if pair.None? || pair.value.0 == "" {
        return MalformedReply;
      }
      if pair.value.0 == "code" {
        code := pair.value.1;
      } else if pair.value.0 == "message" {
        message := pair.value.1;
      }
    }
    return Provider(Or(code, INTERNAL), message);
  }
}
