// The reply a terminal receives (callback_service.go, normalizeMainReply): the helper
// relays the app's answer but is not its author, so a malformed one becomes `internal`
// and every one carries the request's own id.
module CallbackReply {
  import opened Text

  const MAX_RELAYED_MESSAGE_BYTES: nat := 512

  datatype ErrorBody = ErrorBody(code: string, message: seq<byte>)

  // The app's reply as decoded: what JSON makes of it, field by field.
  datatype MainReply =
    | NotJson
    | Decoded(ok: Option<bool>, result: Option<string>, error: Option<ErrorBody>)

  datatype CliReply =
    | Ok(id: int, result: string)
    | Error(id: int, code: string, message: seq<byte>)

  function Bytes(s: string): seq<byte> {
    seq(|s|, i requires 0 <= i < |s| => s[i] as int % 256)
  }

  function Internal(id: int): CliReply {
    Error(id, "internal", Bytes("internal error"))
  }

  // A byte that does not continue a multi-byte character.
  predicate RuneStart(b: byte) {
    b < 0x80 || b >= 0xc0
  }

  // Where to cut: the last character boundary at or below `cut`.
  function CutAt(s: seq<byte>, cut: nat): (r: nat)
    requires cut < |s|
    ensures r <= cut && (r == 0 || RuneStart(s[r]))
    ensures forall i | r < i <= cut :: !RuneStart(s[i])
  {
    if cut == 0 || RuneStart(s[cut]) then cut else CutAt(s, cut - 1)
  }

  function Truncate(s: seq<byte>, max: nat): seq<byte> {
    if |s| <= max then s else s[..CutAt(s, max)]
  }

  // How many bytes the character takes that a byte begins, or 0 if it begins none.
  function RuneLength(lead: byte): nat {
    if lead < 0x80 then 1
    else if 0xc0 <= lead < 0xe0 then 2
    else if 0xe0 <= lead < 0xf0 then 3
    else if 0xf0 <= lead < 0xf8 then 4
    else 0
  }

  predicate StartsWithRune(s: seq<byte>) {
    && s != [] && 0 < RuneLength(s[0]) <= |s|
    && forall i | 0 < i < RuneLength(s[0]) :: !RuneStart(s[i])
  }

  // Whole characters, one after the other.
  predicate Utf8(s: seq<byte>)
    decreases |s|
  {
    s == [] || (StartsWithRune(s) && Utf8(s[RuneLength(s[0])..]))
  }

  // In text, a beginning is text exactly when what follows begins a character.
  lemma {:induction false} BoundaryExactly(s: seq<byte>, k: nat)
    requires Utf8(s) && k <= |s|
    ensures Utf8(s[..k]) <==> k == |s| || RuneStart(s[k])
    decreases |s|
  {
    if s == [] || k == 0 {
      assert s[..k] == [];
    } else {
      var n := RuneLength(s[0]);
      assert s[..k][0] == s[0];
      if k >= n {
        BoundaryExactly(s[n..], k - n);
        assert s[..k][n..] == s[n..][..k - n];
        assert forall i | 0 < i < n :: s[..k][i] == s[i];
      }
    }
  }

  // A cut message is the longest beginning within the limit that splits no character.
  lemma TruncateIsLongest(s: seq<byte>, max: nat)
    requires Utf8(s)
    ensures var r := Truncate(s, max);
            && r <= s && |r| <= max && Utf8(r)
            && forall k: nat | |r| < k <= max && k <= |s| :: !Utf8(s[..k])
  {
    hide Utf8;
    if |s| > max {
      var cut := CutAt(s, max);
      BoundaryExactly(s, cut);
      NothingIsText();
      assert cut == 0 ==> s[..cut] == [];
      forall k: nat | cut < k <= max ensures !Utf8(s[..k]) { BoundaryExactly(s, k); }
    }
  }

  lemma NothingIsText()
    ensures Utf8([])
  {
  }

  // Of any bytes the cut is a beginning within the limit.
  lemma TruncateIsBounded(s: seq<byte>, max: nat)
    ensures Truncate(s, max) <= s && |Truncate(s, max)| <= max
  {
  }

  function Normalize(codes: set<string>, id: int, reply: MainReply): CliReply {
    match reply
    case NotJson => Internal(id)
    case Decoded(ok, result, error) =>
      if ok.None? then Internal(id)
      else if ok.value then
        if result.None? then Internal(id) else Ok(id, result.value)
      else if error.None? || error.value.code !in codes then Internal(id)
      else Error(id, error.value.code, Truncate(error.value.message, MAX_RELAYED_MESSAGE_BYTES))
  }

  // Whatever the app sent: the answer carries the request's id, an error carries a known
  // code and a bounded message, and it is a success exactly when the app said so and
  // supplied a result. An error it refused with by a known code is relayed, with its whole
  // message if that is short enough; anything else is `internal`.
  lemma NormalizedIsSafe(codes: set<string>, id: int, reply: MainReply)
    requires "internal" in codes
    ensures var r := Normalize(codes, id, reply);
            && r.id == id
            && (r.Error? ==> r.code in codes && |r.message| <= MAX_RELAYED_MESSAGE_BYTES)
            && (r.Ok? <==> reply.Decoded? && reply.ok == Some(true) && reply.result.Some?)
            && (r.Ok? ==> Some(r.result) == reply.result)
            && (r.Error? && r.code != "internal" ==>
                  reply.Decoded? && reply.ok == Some(false) && reply.error.Some?
                  && r.code == reply.error.value.code && r.message <= reply.error.value.message
                  && (Utf8(reply.error.value.message) ==> Utf8(r.message)))
            && (if reply.Decoded? && reply.ok == Some(false) && reply.error.Some? && reply.error.value.code in codes then
                  r.Error? && r.code == reply.error.value.code
                  && (|reply.error.value.message| <= MAX_RELAYED_MESSAGE_BYTES ==> r.message == reply.error.value.message)
                else r.Ok? || r == Error(id, "internal", Bytes("internal error")))
  {
    hide Utf8;
    if reply.Decoded? && reply.error.Some? {
      TruncateIsBounded(reply.error.value.message, MAX_RELAYED_MESSAGE_BYTES);
      if Utf8(reply.error.value.message) { TruncateIsLongest(reply.error.value.message, MAX_RELAYED_MESSAGE_BYTES); }
    }
  }

  method TruncateUTF8(s: seq<byte>, max: nat) returns (r: seq<byte>)
    ensures r == Truncate(s, max)
  {
    if |s| <= max { return s; }
    var cut: nat := max;
    while cut > 0 && !RuneStart(s[cut])
      invariant cut <= max
      invariant CutAt(s, cut) == CutAt(s, max)
    {
      cut := cut - 1;
    }
    return s[..cut];
  }
}
