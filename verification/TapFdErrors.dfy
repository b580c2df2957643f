/** When an error line survives the trip: the sanitizer rewrites six characters, the
    tokenizer splits at every white space. */
module TapFdErrors {
  import opened Wire
  import opened TapFd

  /** Splitting distributes over a break at white space. */
  lemma {:induction false} FieldsConcat(x: string, t: string)
    requires t == [] || IsSpace(t[0])
    ensures Fields(x + t) == Fields(x) + Fields(t)
    decreases |x|
  {
    if x == [] {
      assert x + t == t;
    } else if IsSpace(x[0]) {
      assert (x + t)[1..] == x[1..] + t;
      FieldsConcat(x[1..], t);
    } else {
      var n := WordLen(x);
      assert x == x[..n] + x[n..];
      WordFirst(x[..n], x[n..], t);
      FieldsConcat(x[n..], t);
      Associates([x[..n]], Fields(x[n..]), Fields(t));
    }
  }

  lemma WordFirst(w: string, rest: string, t: string)
    requires IsWord(w) && (rest == [] || IsSpace(rest[0])) && (t == [] || IsSpace(t[0]))
    ensures Fields(w + rest) == [w] + Fields(rest)
    ensures Fields(w + rest + t) == [w] + Fields(rest + t)
  {
    FieldsFront(w, rest);
    Associates(w, rest, t);
    if rest == [] {
      assert rest + t == t;
    } else {
      assert (rest + t)[0] == rest[0];
    }
    FieldsFront(w, rest + t);
  }

  /** The first token and what follows it. */
  lemma FirstWord(y: string) returns (w: string, rest: string)
    requires y != [] && !IsSpace(y[0])
    ensures y == w + rest && IsWord(w) && (rest == [] || IsSpace(rest[0]))
    ensures Fields(y) == [w] + Fields(rest)
  {
    w, rest := y[..WordLen(y)], y[WordLen(y)..];
    FieldsFront(w, rest);
  }

  lemma WordsGlue(p: string, w: string)
    requires IsWord(p) && IsWord(w)
    ensures IsWord(p + w)
  {
    forall i | 0 <= i < |p + w| ensures !IsSpace((p + w)[i]) {
      assert (p + w)[i] == if i < |p| then p[i] else w[i - |p|];
    }
  }

  lemma GlueParts(p: string, w: string, rest: string)
    requires IsWord(p) && IsWord(w) && (rest == [] || IsSpace(rest[0]))
    ensures Fields(p + (w + rest)) == [p + w] + Fields(rest)
  {
    WordsGlue(p, w);
    Associates(p, w, rest);
    FieldsFront(p + w, rest);
  }

  lemma Associates<T>(a: seq<T>, b: seq<T>, c: seq<T>)
    ensures a + (b + c) == a + b + c
  {
  }

  /** A word glued to the front of a text joins its first token. */
  lemma FieldsGlue(p: string, y: string) returns (w: string, more: seq<string>)
    requires IsWord(p) && y != [] && !IsSpace(y[0])
    ensures Fields(y) == [w] + more && Fields(" " + (p + y)) == [p + w] + more
  {
    var rest;
    w, rest := FirstWord(y);
    more := Fields(rest);
    GlueParts(p, w, rest);
    Skipped(p + y);
  }

  lemma Skipped(s: string)
    ensures Fields(" " + s) == Fields(s)
  {
    assert (" " + s)[1..] == s;
  }

  /** Non-empty, and neither end is white space. */
  predicate Trimmed(s: string) {
    s != [] && !IsSpace(s[0]) && !IsSpace(s[|s| - 1])
  }

  /** A trimmed text is one token, or at least two. */
  lemma TrimmedFields(x: string)
    requires Trimmed(x)
    ensures IsWord(x) ==> Fields(x) == [x]
    ensures !IsWord(x) ==> |Fields(x)| >= 2
  {
    var n := WordLen(x);
    var w, rest := x[..n], x[n..];
    assert x == w + rest;
    FieldsFront(w, rest);
    if IsWord(x) {
      FieldsFront(x, []);
      assert x + [] == x;
    } else {
      assert rest[|rest| - 1] == x[|x| - 1];
      SomeField(rest);
    }
  }

  lemma {:induction false} SomeField(s: string)
    requires s != [] && !IsSpace(s[|s| - 1])
    ensures Fields(s) != []
    decreases |s|
  {
    if IsSpace(s[0]) {
      assert s[1..][|s| - 2] == s[|s| - 1];
      SomeField(s[1..]);
    }
  }

  lemma {:induction false} TrimRightEnds(s: string)
    ensures TrimRight(s) <= s
    ensures TrimRight(s) == [] || !IsSpace(TrimRight(s)[|TrimRight(s)| - 1])
  {
    if s != [] && IsSpace(s[|s| - 1]) {
      TrimRightEnds(s[..|s| - 1]);
    }
  }

  lemma {:induction false} TrimLeftEnds(s: string)
    ensures TrimLeft(s) == [] || !IsSpace(TrimLeft(s)[0])
  {
    if s != [] && IsSpace(s[0]) {
      TrimLeftEnds(s[1..]);
    }
  }

  /** What the sanitizer leaves is trimmed and has no equals sign. */
  lemma SanitizedEnds(v: string, fallback: string)
    requires Trimmed(fallback) && '=' !in fallback
    ensures Trimmed(Or(SafeAll(Trim(v)), fallback)) && '=' !in Or(SafeAll(Trim(v)), fallback)
  {
    TrimLeftEnds(v);
    TrimRightEnds(TrimLeft(v));
    var t := Trim(v);
    var safe := SafeAll(t);
    forall i | 0 <= i < |safe| ensures safe[i] != '=' {
      assert safe[i] == Safe(t[i]);
    }
    if t != [] {
      assert t[0] == TrimLeft(v)[0];
      assert safe[0] == Safe(t[0]) && safe[|t| - 1] == Safe(t[|t| - 1]);
    }
  }

  /** A token without an equals sign spoils the whole line. */
  lemma {:induction false} BareTokenSpoils(tokens: seq<string>, k: nat, code: string, message: string)
    requires k < |tokens| && '=' !in tokens[k]
    ensures ReadError(tokens, code, message) == MalformedReply
  {
    if k == 0 {
      assert Index(tokens[0], '=') == |tokens[0]|;
    } else {
      var pair := Cut(tokens[0]);
      if pair.Some? && pair.value.0 != "" {
        BareTokenSpoils(tokens[1..], k - 1, if pair.value.0 == "code" then pair.value.1 else code,
                        if pair.value.0 == "message" then pair.value.1 else message);
      }
    }
  }

  lemma ReadCode(code: string, rest: seq<string>, message: string)
    ensures ReadError(["code=" + code] + rest, "", message) == ReadError(rest, code, message)
  {
    CutIs("code", code);
    assert "code" + "=" + code == "code=" + code;
    assert (["code=" + code] + rest)[1..] == rest;
  }

  lemma ReadMessage(code: string, message: string)
    requires code != ""
    ensures ReadError(["message=" + message], code, "") == Provider(code, message)
  {
    CutIs("message", message);
    assert "message" + "=" + message == "message=" + message;
    assert ["message=" + message][1..] == [];
  }

  /** Two pairs read back; any further token is bare and spoils the line. */
  lemma PairsRead(c: string, moreC: seq<string>, m: string, moreM: seq<string>)
    requires c != ""
    requires forall i :: 0 <= i < |moreC| ==> '=' !in moreC[i]
    requires forall i :: 0 <= i < |moreM| ==> '=' !in moreM[i]
    ensures ReadError((["code=" + c] + moreC) + (["message=" + m] + moreM), "", "") ==
            if moreC == [] && moreM == [] then Provider(c, m) else MalformedReply
  {
    var first, second := ["code=" + c] + moreC, ["message=" + m] + moreM;
    if moreC != [] {
      assert (first + second)[1] == moreC[0];
      BareTokenSpoils(first + second, 1, "", "");
    } else if moreM != [] {
      assert (first + second)[2] == moreM[0];
      BareTokenSpoils(first + second, 2, "", "");
    } else {
      assert first + second == ["code=" + c] + ["message=" + m];
      ReadCode(c, ["message=" + m], "");
      ReadMessage(c, m);
    }
  }

  lemma ThreeBreaks(a: string, b: string, c: string, d: string)
    requires b != [] && c != [] && d != [] && IsSpace(b[0]) && IsSpace(c[0]) && IsSpace(d[0])
    ensures Fields(a + b + c + d) == Fields(a) + Fields(b) + Fields(c) + Fields(d)
  {
    FieldsConcat(a + b + c, d);
    FieldsConcat(a + b, c);
    FieldsConcat(a, b);
  }

  lemma OneWord(w: string)
    requires IsWord(w)
    ensures Fields(w) == [w] && Fields(" " + w) == [w]
  {
    FieldsFront(w, []);
    assert w + [] == w && (" " + w)[1..] == w;
  }

  lemma SpacedTokens(v: string, e: string, a: string, b: string)
    requires IsWord(v) && IsWord(e)
    ensures Fields(Spaced(v, e, a, b)) == [v, e] + (Fields(" " + a) + Fields(" " + b))
  {
    ThreeBreaks(v, " " + e, " " + a, " " + b);
    OneWord(v);
    OneWord(e);
    Regroup([v], [e], Fields(" " + a), Fields(" " + b));
  }

  lemma Regroup(a: seq<string>, b: seq<string>, c: seq<string>, d: seq<string>)
    ensures a + b + c + d == a + b + (c + d)
  {
  }

  lemma LineTrims(line: string)
    requires Trimmed(line)
    ensures Trim(line + "\n") == line
  {
    var s := line + "\n";
    assert s[0] == line[0] && TrimLeft(s) == s;
    assert s[..|s| - 1] == line && IsSpace(s[|s| - 1]);
    assert TrimRight(s) == TrimRight(line);
  }

  /** The error line is read back exactly if both sanitized values are free of the white
      space the sanitizer does not know; otherwise the reader calls it malformed. */
  lemma ErrorTripExact(code: string, message: string)
    ensures var c, m := CodeOf(code), MessageOf(message);
            ErrorOf(BuildError(code, message)) ==
            if IsWord(c) && IsWord(m) then Provider(c, m) else MalformedReply
  {
    var c, m := CodeOf(code), MessageOf(message);
    SanitizedEnds(code, INTERNAL);
    SanitizedEnds(message, "error");
    TripExact(c, m);
  }

  lemma TripExact(c: string, m: string)
    requires Trimmed(c) && Trimmed(m) && '=' !in c && '=' !in m
    ensures ErrorOf(ErrorLine("code=" + c, "message=" + m) + "\n") ==
            if IsWord(c) && IsWord(m) then Provider(c, m) else MalformedReply
  {
    var cw, moreC := ValueTokens("code=", c);
    var mw, moreM := ValueTokens("message=", m);
    PairsRead(cw, moreC, mw, moreM);
    LastOf("message=", m);
    LineRead("code=" + c, "message=" + m, (["code=" + cw] + moreC) + (["message=" + mw] + moreM));
  }

  lemma LastOf(p: string, m: string)
    requires m != ""
    ensures (p + m)[|p + m| - 1] == m[|m| - 1]
  {
  }

  /** A value behind its key: one token if it is a word, else one token and bare ones. */
  lemma ValueTokens(p: string, s: string) returns (w: string, more: seq<string>)
    requires IsWord(p) && Trimmed(s) && '=' !in s
    ensures Fields(" " + (p + s)) == [p + w] + more
    ensures w != "" && forall i :: 0 <= i < |more| ==> '=' !in more[i]
    ensures if IsWord(s) then w == s && more == [] else more != []
  {
    w, more := FieldsGlue(p, s);
    MoreLack(s, w, more);
    TrimmedFields(s);
  }

  /** The further tokens of a sanitized value are bare, and the first is not empty. */
  lemma MoreLack(s: string, w: string, more: seq<string>)
    requires Fields(s) == [w] + more && '=' !in s
    ensures w != "" && forall i :: 0 <= i < |more| ==> '=' !in more[i]
  {
    FieldsLack(s, '=');
    FieldsAreWords(s);
    assert Fields(s)[0] == w;
    forall i | 0 <= i < |more| ensures '=' !in more[i] {
      assert Fields(s)[i + 1] == more[i];
    }
  }

  /** The reader gets from the line to its tokens. */
  lemma LineRead(a: string, b: string, tail: seq<string>)
    requires b != "" && !IsSpace(b[|b| - 1])
    requires tail != [] && tail == Fields(" " + a) + Fields(" " + b)
    ensures ErrorOf(ErrorLine(a, b) + "\n") == ReadError(tail, "", "")
  {
    var line := ErrorLine(a, b);
    SpacedTokens(VERSION, "ERR", a, b);
    assert line[0] == 'T' && line[|line| - 1] == b[|b| - 1];
    LineTrims(line);
    assert VERSION + " ERR" <= line;
    assert Fields(line)[2..] == tail;
  }

  /** A text that the sanitizer leaves as it is: trimmed, and without the six characters. */
  predicate Plain(s: string) {
    Trimmed(s) && forall i :: 0 <= i < |s| ==> s[i] !in ['=', NUL, '\n', '\r', ' ', '\t']
  }

  /** The sanitizer keeps exactly the plain texts, and whatever it makes of another one is
      plain or empty. */
  lemma SanitizeExact(s: string)
    ensures s != "" ==> (SafeAll(Trim(s)) == s <==> Plain(s))
    ensures SafeAll(Trim(s)) == "" || Plain(SafeAll(Trim(s)))
  {
    TrimLeftEnds(s);
    TrimRightEnds(TrimLeft(s));
    var t := Trim(s);
    var safe := SafeAll(t);
    SafeIsPlain(t);
    if Plain(s) {
      assert TrimLeft(s) == s && TrimRight(s) == s;
      assert safe == s;
    }
  }

  lemma SafeIsPlain(t: string)
    requires t != [] ==> Trimmed(t)
    ensures SafeAll(t) == "" || Plain(SafeAll(t))
  {
    var safe := SafeAll(t);
    forall i | 0 <= i < |safe| ensures safe[i] !in ['=', NUL, '\n', '\r', ' ', '\t'] {
      assert safe[i] == Safe(t[i]);
    }
    if t != [] {
      assert safe[0] == Safe(t[0]) && safe[|t| - 1] == Safe(t[|t| - 1]);
    }
  }

  /** A code and a message that are words without equals sign and NUL come back as sent. */
  lemma PlainErrorTrips(code: string, message: string)
    requires IsWord(code) && IsWord(message) && '=' !in code && '=' !in message && NUL !in code && NUL !in message
    ensures ErrorOf(BuildError(code, message)) == Provider(code, message)
  {
    WordIsKept(code, INTERNAL);
    WordIsKept(message, "error");
    ErrorTripExact(code, message);
  }

  lemma WordIsKept(s: string, fallback: string)
    requires IsWord(s) && '=' !in s && NUL !in s
    ensures Or(SafeAll(Trim(s)), fallback) == s
  {
    assert Plain(s);
    SanitizeExact(s);
  }

  lemma {:induction false} TrimRightKeeps(s: string, i: nat)
    requires i < |s| && !IsSpace(s[i])
    ensures i < |TrimRight(s)| && TrimRight(s) <= s
  {
    if IsSpace(s[|s| - 1]) {
      TrimRightKeeps(s[..|s| - 1], i);
    }
  }

  /** Neither a record nor an OK response is taken for an error. */
  lemma SuccessIsNoError(m: Meta, payload: string)
    ensures ErrorOf(Encoded(m)) == NotError
    ensures ErrorOf(OK_PREFIX + payload) == NotError
  {
    var w, s := Words(m), Encoded(m);
    assert Joined(w) == w[0] + " " + Joined(w[1..]);
    assert s[0] == 'p' && TrimLeft(s) == s;
    TrimRightKeeps(s, 0);
    var r := OK_PREFIX + payload;
    assert r[0] == 'T' && r[8] == 'O' && TrimLeft(r) == r;
    TrimRightKeeps(r, 8);
    assert (VERSION + " ERR")[0] == 'T' && (VERSION + " ERR")[8] == 'E';
    assert Trim(s)[0] == 'p' && Trim(r)[8] == 'O';
  }

  lemma {:induction false} LastValueFront(w: string, rest: seq<string>, key: string)
    ensures LastValue([w] + rest, key) ==
            if LastValue(rest, key).Some? then LastValue(rest, key) else Newer(w, key, None)
  {
    var all := [w] + rest;
    if rest == [] {
      assert all == [w] && [w][..0] == [];
      assert LastValue([w][..0], key) == None;
    } else {
      var front, last := rest[..|rest| - 1], rest[|rest| - 1];
      LastValueFront(w, front, key);
      assert all == ([w] + front) + [last] && rest == front + [last];
      LastValueSnoc([w] + front, last, key);
      LastValueSnoc(front, last, key);
    }
  }

  /** Every token is a pair with a key. */
  predicate AllPairs(tokens: seq<string>) {
    forall i :: 0 <= i < |tokens| ==> Cut(tokens[i]).Some? && Cut(tokens[i]).value.0 != ""
  }

  /** The pairs of an error line are read exactly if each is a pair with a key; code and
      message are then the last values of their keys, and a missing code is an internal error. */
  lemma {:induction false} ErrorReadExactly(tokens: seq<string>, code: string, message: string)
    ensures ReadError(tokens, code, message) ==
            if AllPairs(tokens) then
              Provider(Or(TextOr(LastValue(tokens, "code"), code), "PROVIDER_INTERNAL"), TextOr(LastValue(tokens, "message"), message))
            else MalformedReply
    decreases |tokens|
  {
    if tokens != [] {
      var w, rest := tokens[0], tokens[1..];
      assert tokens == [w] + rest;
      assert AllPairs(tokens) <==> Cut(w).Some? && Cut(w).value.0 != "" && AllPairs(rest);
      LastValueFront(w, rest, "code");
      LastValueFront(w, rest, "message");
      if Cut(w).Some? {
        var (key, val) := Cut(w).value;
        ErrorReadExactly(rest, if key == "code" then val else code, if key == "message" then val else message);
      }
    }
  }

  /** A token of an error line with another key changes nothing, wherever it stands. */
  lemma {:induction false} UnknownErrorKeyIgnored(before: seq<string>, token: string, after: seq<string>, code: string,
                                                  message: string)
    requires Cut(token).Some? && Cut(token).value.0 !in ["", "code", "message"]
    ensures ReadError(before + [token] + after, code, message) == ReadError(before + after, code, message)
    decreases |before|
  {
    var all := before + [token] + after;
    if before == [] {
      assert all[0] == token && all[1..] == after && before + after == after;
    } else {
      assert all[0] == before[0] && all[1..] == before[1..] + [token] + after;
      assert (before + after)[0] == before[0] && (before + after)[1..] == before[1..] + after;
      if Cut(before[0]).Some? {
        var (key, val) := Cut(before[0]).value;
        UnknownErrorKeyIgnored(before[1..], token, after, if key == "code" then val else code,
                               if key == "message" then val else message);
      }
    }
  }

  /** A vertical tab in the message is enough. */
  lemma VerticalTabSpoils()
    ensures ErrorOf(BuildError("X", "a\U{000B}b")) == MalformedReply
  {
    var v := "a\U{000B}b";
    assert TrimLeft(v) == v && TrimRight(v) == v;
    assert SafeAll(v)[1] == v[1];
    assert IsSpace(v[1]);
    ErrorTripExact("X", v);
  }
}
