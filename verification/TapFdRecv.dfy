/** Receiving descriptors: whatever happens after the control messages were parsed, each
    descriptor is handed to the caller or closed, once. */
module TapFdRecv {
  import opened Wire
  import opened TapFd

  /** One control message: descriptors, descriptors that do not parse, or something else. */
  datatype Control = Rights(fds: seq<int>) | Garbled | Other

  /** One received message. The two flags are the failures of the calls before parsing. */
  datatype Message = Message(received: bool, text: string, parses: bool, controls: seq<Control>)

  datatype Failure =
    | RecvFailed | EmptyText | BadAncillary | BadRights | ProviderError(reply: ErrorReply) | NoRights
    | EmptyOk | BadPayload(error: ParseError) | TooManyNetns | CountMismatch | NoFile | WrongCount(n: nat)

  /** The descriptors that the loop over the control messages has in hand: all of them, or
      those before the first message that does not parse. */
  function Collected(controls: seq<Control>): seq<int> {
    if controls == [] then []
    else match controls[0]
         case Rights(fds) => fds + Collected(controls[1..])
         case Garbled => []
         case Other => Collected(controls[1..])
  }

  predicate AllParse(controls: seq<Control>) {
    forall i :: 0 <= i < |controls| ==> !controls[i].Garbled?
  }

  /** The descriptors of a message that were parsed at all. */
  function InHand(m: Message): seq<int> {
    if m.received && m.text != "" && m.parses then Collected(m.controls) else []
  }

  /** What the payload must say for the descriptors to be handed over. */
  predicate Accepts(m: Message, meta: Meta) {
    var fds := Collected(m.controls);
    && m.received && m.text != "" && m.parses && AllParse(m.controls) && fds != []
    && StripOk(m.text).Some? && Parsed(StripOk(m.text).value) == Ok(meta)
    && meta.netns <= 1
    && (if meta.fds != 0 then |fds| == meta.fds as int + meta.netns else meta.netns <= |fds|)
    && forall i :: 0 <= i < |fds| ==> fds[i] >= 0
  }

  class Receiver {
    /** Every close so far, in order. */
    var closed: seq<int>

    constructor ()
      ensures closed == []
    {
      closed := [];
    }

    method CloseAll(fds: seq<int>)
      modifies this
      ensures closed == old(closed) + fds
    {
      for i := 0 to |fds|
        invariant closed == old(closed) + fds[..i]
      {
        closed := closed + [fds[i]];
      }
    }

    /** Collects the descriptors; on a message that does not parse it closes those it has. */
    method Collect(controls: seq<Control>) returns (r: Option<seq<int>>)
      modifies this
      ensures r.Some? <==> AllParse(controls)
      ensures r.Some? ==> r.value == Collected(controls) && closed == old(closed)
      ensures r.None? ==> closed == old(closed) + Collected(controls)
    {
      var fds: seq<int> := [];
      for i := 0 to |controls|
        invariant AllParse(controls[..i]) && closed == old(closed)
        invariant Collected(controls) == fds + Collected(controls[i..])
      {
        assert controls[i..][1..] == controls[i + 1..];
        match controls[i]
        case Rights(more) =>
          fds := fds + more;
        case Garbled =>
          assert Collected(controls[i..]) == [];
          CloseAll(fds);
          return None;
        case Other =>
      }
      assert controls[..|controls|] == controls;
      return Some(fds);
    }

    /** Wraps every descriptor in a file; os.NewFile refuses a negative one, and then the
        files made so far and the descriptors left are closed. */
    method Wrap(fds: seq<int>) returns (ok: bool)
      modifies this
      ensures ok <==> forall i :: 0 <= i < |fds| ==> fds[i] >= 0
      ensures closed == old(closed) + if ok then [] else fds
    {
      var files: seq<int> := [];
      for i := 0 to |fds|
        invariant files == fds[..i] && closed == old(closed)
        invariant forall j :: 0 <= j < i ==> fds[j] >= 0
      {
        if fds[i] < 0 {
          CloseAll(files);
          CloseAll(fds[i..]);
          assert fds[..i] + fds[i..] == fds;
          return false;
        }
        files := files + [fds[i]];
      }
      return true;
    }

    /** Decodes the payload and checks the counts, before anything is wrapped. */
    static method Decide(text: string, n: nat) returns (r: Result<Meta, Failure>)
      ensures r.Ok? ==> StripOk(text).Some? && Parsed(StripOk(text).value) == Ok(r.value) && r.value.netns <= 1
      ensures r.Ok? ==> if r.value.fds != 0 then n == r.value.fds as int + r.value.netns else r.value.netns <= n
      ensures r.Err? && StripOk(text).Some? && Parsed(StripOk(text).value).Ok? ==>
                var meta := Parsed(StripOk(text).value).value;
                meta.netns > 1 || (if meta.fds != 0 then n != meta.fds as int + meta.netns else meta.netns > n)
    {
      var payload := StripOk(text);
      if payload.None? {
        return Err(EmptyOk);
      }
      var parsed := ParsePayload(payload.value);
      if parsed.Err? {
        return Err(BadPayload(parsed.error));
      }
      var meta := parsed.value;
      if meta.netns > 1 {
        return Err(TooManyNetns);
      }
      if meta.fds != 0 {
        if n != meta.fds as int + meta.netns {
          return Err(CountMismatch);
        }
      } else if meta.netns > n {
        return Err(CountMismatch);
      }
      return Ok(meta);
    }

    /** Delivers all the descriptors, split into tap and netns, exactly if the message is
        acceptable; otherwise it closes all of them. */
    method RecvFdsWithNetns(m: Message) returns (r: Result<(seq<int>, Option<int>, Meta), Failure>)
      modifies this
      ensures r.Ok? <==> exists meta :: Accepts(m, meta)
      ensures r.Ok? ==>
                var (taps, netns, meta) := r.value;
                && Accepts(m, meta)
                && InHand(m) == taps + (if netns.Some? then [netns.value] else [])
                && (netns.Some? <==> meta.netns == 1) && (meta.fds != 0 ==> |taps| == meta.fds)
      ensures closed == old(closed) + if r.Ok? then [] else InHand(m)
      ensures m.received && m.text != "" && m.parses && AllParse(m.controls) && Collected(m.controls) == [] ==>
                r == Err(if ErrorOf(m.text).NotError? then NoRights else ProviderError(ErrorOf(m.text)))
    {
      if !m.received {
        return Err(RecvFailed);
      }
      if m.text == "" {
        return Err(EmptyText);
      }
      if !m.parses {
        return Err(BadAncillary);
      }
      var collected := Collect(m.controls);
      if collected.None? {
        return Err(BadRights);
      }
      var fds := collected.value;
      if fds == [] {
        var reply := ParseErrorResponse(m.text);
        return Err(if reply.NotError? then NoRights else ProviderError(reply));
      }
      var decision := Decide(m.text, |fds|);
      if decision.Err? {
        CloseAll(fds);
        return Err(decision.error);
      }
      var meta := decision.value;
      var wrapped := Wrap(fds);
      if !wrapped {
        return Err(NoFile);
      }
      assert Accepts(m, meta);
      var cut := |fds| - meta.netns;
      return Ok((fds[..cut], if meta.netns == 1 then Some(fds[cut]) else None, meta));
    }

    /** Drops the netns descriptor: it is closed, nothing else is. */
    method RecvFds(m: Message) returns (r: Result<(seq<int>, Meta), Failure>)
      modifies this
      ensures r.Ok? <==> exists meta :: Accepts(m, meta)
      ensures r.Ok? ==>
                var (taps, meta) := r.value;
                && Accepts(m, meta) && |InHand(m)| == |taps| + meta.netns
                && InHand(m)[..|taps|] == taps && closed == old(closed) + InHand(m)[|taps|..]
      ensures r.Err? ==> closed == old(closed) + InHand(m)
    {
      var all := RecvFdsWithNetns(m);
      if all.Err? {
        return Err(all.error);
      }
      var (taps, netns, meta) := all.value;
      if netns.Some? {
        CloseAll([netns.value]);
        assert InHand(m)[|taps|..] == [netns.value];
      } else {
        assert InHand(m) == taps;
      }
      return Ok((taps, meta));
    }

    /** Wants exactly one tap descriptor. Counted with multiplicity, what it hands over and
        what it closes are together what was in hand. */
    method RecvFd(m: Message) returns (r: Result<(int, Meta), Failure>)
      modifies this
      ensures r.Ok? <==> exists meta :: Accepts(m, meta) && |InHand(m)| == 1 + meta.netns
      ensures r.Ok? ==> Accepts(m, r.value.1) && r.value.0 == InHand(m)[0]
      ensures old(closed) <= closed
      ensures multiset(closed[|old(closed)|..]) + (if r.Ok? then multiset{r.value.0} else multiset{}) ==
              multiset(InHand(m))
    {
      var some := RecvFds(m);
      if some.Err? {
        assert closed[|old(closed)|..] == InHand(m);
        return Err(some.error);
      }
      var (taps, meta) := some.value;
      ghost var dropped := InHand(m)[|taps|..];
      assert InHand(m) == taps + dropped;
      if |taps| != 1 {
        CloseAll(taps);
        assert closed[|old(closed)|..] == dropped + taps;
        return Err(WrongCount(|taps|));
      }
      assert closed[|old(closed)|..] == dropped;
      assert taps == [taps[0]];
      return Ok((taps[0], meta));
    }
  }
}
