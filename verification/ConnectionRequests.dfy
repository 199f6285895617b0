/**
 * src/net/connection_request.c: the record of one connection and the messages built
 * from it.  Asymmetric keys and Base64 are symbolic: a public key message names the key
 * pair it was made from, and a sealed secret opens with that key pair only.  Symmetric
 * payloads are the actual cipher feedback bytes, cut where the code cuts them.
 */
module ConnectionRequests {
  import opened Bytes
  import opened Cryptography

  /** A node's guid, a connection's guid and an RSA key pair, each only ever compared. */
  type Guid = nat
  type ConnId = nat
  type Keypair = nat

  datatype RequestState =
    Failed | Unknown | InitialChallenge | ChallengeReply | SessionKeyShare | Complete | Created

  datatype Request = Request(
    id: ConnId, state: RequestState, local: Guid, remote: Guid, keypair: Keypair, secret: Option<Block>)

  datatype Action =
    CreateSession | RespondingCreatedSession | SharingSessionKey | CompletedSession | CommunicatingSession

  datatype Payload =
    | PublicKey(owner: Keypair)
    | Sealed(owner: Keypair, secret: Block)
    | Raw(bytes: seq<Byte>)

  datatype Message = Message(id: ConnId, sender: Guid, recipient: Guid, action: Action, payload: Payload)

  /**
   * Everything a handler takes from outside: a generated key pair, secret and session
   * id, the byte behind a literal, the bytes behind a buffer up to the NUL that ends
   * `strlen`, the byte behind a received payload, and the bytes behind the buffer that it
   * is decrypted into, up to a NUL.
   */
  datatype Chance = Chance(keypair: Keypair, secret: Block, sid: nat, pad: Byte, tail: seq<Byte>, stray: Byte,
                           behind: seq<Byte>)

  /** Where the process stops: a failed check, an explicit exit or a null dereference. */
  datatype Abort =
    | UnknownPeer | MessageToSelf | DuplicateCreate | ReplyWithoutConnection | MissingRecord
    | BadPublicKey | CannotUnseal | NoSecret | ForeignPayload | NoMessage

  // "OKAY"
  const OKAY: CString := [Byte(0x4F), Byte(0x4B), Byte(0x41), Byte(0x59)]

  // ------------------------------------------------------------ symmetric payloads

  /** The completion message: "OKAY" and the two bytes behind it, cut at the first NUL. */
  function OkayPayload(des: Cipher, secret: Block, pad: Byte, tail: seq<Byte>): seq<Byte> {
    CStr(Encrypt(des, secret, OKAY + [NUL, pad]) + tail)
  }

  /** A chat message: len + 1 bytes encrypted, sent up to and including the first NUL. */
  function DataPayload(des: Cipher, secret: Block, mem: seq<Byte>, len: nat, tail: seq<Byte>): seq<Byte>
    requires len < |mem|
  {
    CutAtNul(Encrypt(des, secret, mem[..len + 1]) + tail)
  }

  /** The first `strlen` + 1 bytes of a buffer. */
  function CutAtNul(buf: seq<Byte>): seq<Byte> {
    var n := CStrLen(buf) + 1;
    buf[..if n <= |buf| then n else |buf|]
  }

  /** The beginning up to the first NUL, that included; everything if there is none. */
  lemma CutAtNulIs(buf: seq<Byte>)
    ensures
      var r := CutAtNul(buf);
      && r <= buf && (r == buf || (r != [] && r[|r| - 1] == NUL))
      && forall i :: 0 <= i < |r| - 1 ==> r[i] != NUL
  {
    assert forall i :: 0 <= i < CStrLen(buf) ==> buf[i] == buf[..CStrLen(buf)][i];
  }

  /** Decryption of a payload together with the stray byte behind it. */
  function Opened(des: Cipher, secret: Block, bytes: seq<Byte>, stray: Byte): seq<Byte> {
    Decrypt(des, secret, bytes + [stray])
  }

  /** The C string read from there, by `strcmp` or by the user's callback. */
  function ReadOut(des: Cipher, secret: Block, bytes: seq<Byte>, stray: Byte, behind: seq<Byte>): CString {
    CStr(Opened(des, secret, bytes, stray) + behind)
  }

  /** The strcmp with "OKAY" at src/net/connection_controller.c:147. */
  predicate OkayArrives(des: Cipher, secret: Block, bytes: seq<Byte>, stray: Byte, behind: seq<Byte>) {
    ReadOut(des, secret, bytes, stray, behind) == OKAY
  }

  /**
   * The ciphertext of "OKAY" and its terminator has no NUL, or what the receiver reads
   * in place of the bytes from the first NUL on is just what is missing.
   */
  predicate OkaySurvives(des: Cipher, secret: Block, stray: Byte, behind: seq<Byte>) {
    var c := Encrypt(des, secret, OKAY + [NUL]);
    var n := CStrLen(c);
    n == |c| || Continues(des, secret, c[..n], stray, behind, OKAY[n..])
  }

  /** The same for a chat text, of whose ciphertext the first NUL is sent too. */
  predicate TextSurvives(des: Cipher, secret: Block, t: CString, stray: Byte, behind: seq<Byte>) {
    var c := Encrypt(des, secret, t);
    var n := CStrLen(c);
    n == |c| || Continues(des, secret, c[..n + 1], stray, behind, t[n + 1..])
  }

  /**
   * Exactly when the text t in mem is read, for every length given with it.  A length
   * below the text's own leaves its end and its NUL out; what the receiver reads there is
   * what the bytes behind the ciphertext decrypt to.
   */
  predicate TextArrives(des: Cipher, secret: Block, mem: seq<Byte>, len: nat, tail: seq<Byte>, stray: Byte,
                        behind: seq<Byte>, t: CString)
    requires ReadsAs(mem, t) && len < |mem|
  {
    if |t| <= len then TextSurvives(des, secret, t, stray, behind)
    else BeginningArrives(des, secret, t[..len + 1], tail, stray, behind, t)
  }

  /** The same where only the beginning q of t is encrypted. */
  predicate BeginningArrives(des: Cipher, secret: Block, q: CString, tail: seq<Byte>, stray: Byte, behind: seq<Byte>,
                             t: CString)
    requires q <= t
  {
    var c := Encrypt(des, secret, q);
    var n := CStrLen(c);
    if n < |c| then Continues(des, secret, c[..n + 1], stray, behind, t[n + 1..])
    else CStr(Opened(des, secret, c + CutAtNul(tail), stray)[|q|..] + behind) == t[|q|..]
  }

  lemma EncryptOfPrefix(des: Cipher, secret: Block, p: seq<Byte>, k: nat)
    requires k <= |p|
    ensures Encrypt(des, secret, p)[..k] == Encrypt(des, secret, p[..k])
  {
    EncryptPrefix(DesMask(des, KeyBlock(secret)), p, k);
  }

  /** How far `strlen` gets in a ciphertext whose first k bytes are known. */
  lemma StrLenOfPrefix(buf: seq<Byte>, k: nat)
    requires k <= |buf|
    ensures CStrLen(buf) >= k <==> NUL !in buf[..k]
    ensures CStrLen(buf) < k ==> CStrLen(buf) == CStrLen(buf[..k])
  {
    var n := CStrLen(buf);
    if n >= k {
      assert buf[..k] == buf[..n][..k];
    } else {
      assert buf[..k][n] == NUL;
      assert buf[..k][..n] == buf[..n];
      CStrLenIs(buf[..k], n);
    }
  }

  /** The completion message is understood exactly when "OKAY" survives, whatever its padding. */
  lemma OkayArrivesIff(des: Cipher, secret: Block, pad: Byte, tail: seq<Byte>, stray: Byte, behind: seq<Byte>)
    ensures OkayArrives(des, secret, OkayPayload(des, secret, pad, tail), stray, behind)
       <==> OkaySurvives(des, secret, stray, behind)
  {
    var p := OKAY + [NUL, pad];
    var buf := Encrypt(des, secret, p) + tail;
    var c := Encrypt(des, secret, OKAY + [NUL]);
    assert p[..5] == OKAY + [NUL];
    assert ReadsAs(p, OKAY);
    EncryptOfPrefix(des, secret, p, 5);
    assert buf[..5] == c;
    StrLenOfPrefix(buf, 5);
    AllOrCut(c);
    var n := CStrLen(buf);
    CutCarriesString(des, secret, p, tail, n, stray, behind, OKAY);
    if n < 5 {
      assert buf[..n] == c[..n];
    }
  }

  lemma AllOrCut(c: seq<Byte>)
    ensures CStrLen(c) == |c| <==> NUL !in c
  {
    assert c[..|c|] == c;
  }

  lemma TextStarts(des: Cipher, secret: Block, mem: seq<Byte>, len: nat, tail: seq<Byte>, t: CString)
    requires ReadsAs(mem, t) && |t| <= len < |mem|
    ensures ReadsAs(mem[..len + 1], t)
    ensures Encrypt(des, secret, t) < Encrypt(des, secret, mem[..len + 1]) + tail
  {
    var p, k := mem[..len + 1], |t|;
    assert t + [NUL] == mem[..k + 1] == p[..k + 1];
    assert p[..k] == (t + [NUL])[..k] == t;
    EncryptOfPrefix(des, secret, p, k);
    assert (Encrypt(des, secret, p) + tail)[..k] == Encrypt(des, secret, p)[..k];
  }

  /** Where a buffer that begins with c is cut: behind c, or at the first NUL of c. */
  lemma CutLength(buf: seq<Byte>, c: seq<Byte>)
    requires c < buf
    ensures CutAtNul(buf) == buf[..|CutAtNul(buf)|]
    ensures |CutAtNul(buf)| > |c| <==> CStrLen(c) == |c|
    ensures |CutAtNul(buf)| <= |c| ==> |CutAtNul(buf)| == CStrLen(c) + 1 && CutAtNul(buf) == c[..CStrLen(c) + 1]
  {
    StrLenOfPrefix(buf, |c|);
    AllOrCut(c);
    assert buf[..|c|] == c;
    if |CutAtNul(buf)| <= |c| {
      assert buf[..CStrLen(c) + 1] == c[..CStrLen(c) + 1];
    }
  }

  /** What is sent of a chat message t: more bytes than it has, or its ciphertext up to the first NUL. */
  lemma PayloadBytes(des: Cipher, secret: Block, mem: seq<Byte>, len: nat, tail: seq<Byte>, t: CString)
    requires ReadsAs(mem, t) && |t| <= len < |mem|
    ensures
      var c := Encrypt(des, secret, t);
      var sent := DataPayload(des, secret, mem, len, tail);
      && sent == (Encrypt(des, secret, mem[..len + 1]) + tail)[..|sent|]
      && (|sent| > |t| <==> CStrLen(c) == |c|)
      && (|sent| <= |t| ==> |sent| == CStrLen(c) + 1 && sent == c[..|sent|])
  {
    TextStarts(des, secret, mem, len, tail, t);
    CutLength(Encrypt(des, secret, mem[..len + 1]) + tail, Encrypt(des, secret, t));
  }

  lemma PayloadRead(des: Cipher, secret: Block, mem: seq<Byte>, len: nat, tail: seq<Byte>, stray: Byte,
                    behind: seq<Byte>, t: CString)
    requires ReadsAs(mem, t) && |t| <= len < |mem|
    ensures
      var sent := DataPayload(des, secret, mem, len, tail);
      ReadOut(des, secret, sent, stray, behind) == t
      <==> |sent| > |t| || Continues(des, secret, sent, stray, behind, t[|sent|..])
  {
    TextStarts(des, secret, mem, len, tail, t);
    CutCarriesString(des, secret, mem[..len + 1], tail, |DataPayload(des, secret, mem, len, tail)|, stray, behind, t);
  }

  /** A chat message t, given with at least its own length, is read exactly when it survives. */
  lemma DataArrivesIff(des: Cipher, secret: Block, mem: seq<Byte>, len: nat, tail: seq<Byte>, stray: Byte,
                       behind: seq<Byte>, t: CString)
    requires ReadsAs(mem, t) && |t| <= len < |mem|
    ensures ReadOut(des, secret, DataPayload(des, secret, mem, len, tail), stray, behind) == t
       <==> TextSurvives(des, secret, t, stray, behind)
  {
    PayloadBytes(des, secret, mem, len, tail, t);
    PayloadRead(des, secret, mem, len, tail, stray, behind, t);
  }

  /** Six bytes of "OKAY" are encrypted, and sent as a whole if there is no NUL among them. */
  lemma OkaySixBytes(des: Cipher, secret: Block, pad: Byte, tail: seq<Byte>)
    ensures
      var c := Encrypt(des, secret, OKAY + [NUL, pad]);
      |c| == 6 && (NUL !in c ==> OkayPayload(des, secret, pad, tail) == c + CStr(tail))
  {
    var c := Encrypt(des, secret, OKAY + [NUL, pad]);
    if NUL !in c {
      CStrBehind(c, tail);
    }
  }

  /** And len + 1 bytes of a chat message. */
  lemma DataAllBytes(des: Cipher, secret: Block, mem: seq<Byte>, len: nat, tail: seq<Byte>)
    requires len < |mem|
    ensures
      var c := Encrypt(des, secret, mem[..len + 1]);
      |c| == len + 1 && (NUL !in c ==> DataPayload(des, secret, mem, len, tail) == c + CutAtNul(tail))
  {
    if NUL !in Encrypt(des, secret, mem[..len + 1]) {
      CutBehind(Encrypt(des, secret, mem[..len + 1]), tail);
    }
  }

  lemma CutBehind(c: seq<Byte>, tail: seq<Byte>)
    requires NUL !in c
    ensures CutAtNul(c + tail) == c + CutAtNul(tail)
  {
    CStrBehind(c, tail);
    var n := CStrLen(tail);
    assert CStrLen(c + tail) == |c| + n by {
      assert (c + tail)[..|c| + n] == c + tail[..n];
      CStrLenIs(c + tail, |c| + n);
    }
  }

  /** A length below the text's, and a NUL in the ciphertext: it is cut as before. */
  lemma ShortAndCut(des: Cipher, secret: Block, q: CString, tail: seq<Byte>, stray: Byte, behind: seq<Byte>, t: CString)
    requires q <= t && NUL in Encrypt(des, secret, q)
    ensures
      var c := Encrypt(des, secret, q);
      var n := CStrLen(c) + 1;
      && CStrLen(c) < |c|
      && (ReadOut(des, secret, CutAtNul(c + tail), stray, behind) == t
          <==> Continues(des, secret, c[..n], stray, behind, t[n..]))
  {
    var c := Encrypt(des, secret, q);
    AllOrCut(c);
    var n := CStrLen(c) + 1;
    var sent := c[..n];
    CutInside(c, tail);
    TruncatedDecrypt(des, secret, q, sent, n);
    assert Decrypt(des, secret, sent) == Decrypt(des, secret, sent)[..n] == q[..n] == t[..n];
    ReadBehind(des, secret, sent, stray, behind, t[..n]);
    RestOf(t, n, CStr([Xor(stray, Keystream(des, KeyBlock(secret), sent))] + behind));
  }

  lemma CutInside(c: seq<Byte>, tail: seq<Byte>)
    requires CStrLen(c) < |c|
    ensures CutAtNul(c + tail) == c[..CStrLen(c) + 1]
  {
    var n := CStrLen(c);
    assert (c + tail)[..n] == c[..n];
    CStrLenIs(c + tail, n);
  }

  /** And without a NUL: the part sent is read, then what the bytes behind it decrypt to. */
  lemma ShortAndWhole(des: Cipher, secret: Block, q: CString, tail: seq<Byte>, stray: Byte, behind: seq<Byte>)
    requires NUL !in Encrypt(des, secret, q)
    ensures
      var sent := Encrypt(des, secret, q) + CutAtNul(tail);
      && CutAtNul(Encrypt(des, secret, q) + tail) == sent
      && ReadOut(des, secret, sent, stray, behind)
         == q + CStr(Opened(des, secret, sent, stray)[|q|..] + behind)
  {
    var c := Encrypt(des, secret, q);
    var sent := c + CutAtNul(tail);
    CutBehind(c, tail);
    assert (sent + [stray])[..|q|] == c[..|q|];
    TruncatedDecrypt(des, secret, q, sent + [stray], |q|);
    var out := Opened(des, secret, sent, stray);
    assert out + behind == q + (out[|q|..] + behind);
    CStrBehind(q, out[|q|..] + behind);
  }

  lemma BeginningArrivesIff(des: Cipher, secret: Block, q: CString, tail: seq<Byte>, stray: Byte, behind: seq<Byte>,
                            t: CString)
    requires q <= t
    ensures ReadOut(des, secret, CutAtNul(Encrypt(des, secret, q) + tail), stray, behind) == t
       <==> BeginningArrives(des, secret, q, tail, stray, behind, t)
  {
    var c := Encrypt(des, secret, q);
    AllOrCut(c);
    if NUL in c {
      ShortAndCut(des, secret, q, tail, stray, behind, t);
    } else {
      ShortAndWhole(des, secret, q, tail, stray, behind);
      RestOf(t, |q|, CStr(Opened(des, secret, c + CutAtNul(tail), stray)[|q|..] + behind));
    }
  }

  /** The text read from a chat payload is the text t in its sender's memory exactly when t arrives. */
  lemma TextArrivesIff(des: Cipher, secret: Block, mem: seq<Byte>, len: nat, tail: seq<Byte>, stray: Byte,
                       behind: seq<Byte>, t: CString)
    requires ReadsAs(mem, t) && len < |mem|
    ensures ReadOut(des, secret, DataPayload(des, secret, mem, len, tail), stray, behind) == t
       <==> TextArrives(des, secret, mem, len, tail, stray, behind, t)
  {
    if |t| <= len {
      DataArrivesIff(des, secret, mem, len, tail, stray, behind, t);
    } else {
      assert mem[..len + 1] == (t + [NUL])[..len + 1] == t[..len + 1];
      BeginningArrivesIff(des, secret, t[..len + 1], tail, stray, behind, t);
    }
  }

  // -------------------------------------------------------- messages from a record

  function InitiationMessage(r: Request): Message {
    Message(r.id, r.local, r.remote, CreateSession, PublicKey(r.keypair))
  }

  function ReplyMessage(r: Request): Message {
    Message(r.id, r.local, r.remote, RespondingCreatedSession, PublicKey(r.keypair))
  }

  function KeyMessage(r: Request, owner: Keypair, secret: Block): Message {
    Message(r.id, r.local, r.remote, SharingSessionKey, Sealed(owner, secret))
  }

  function OkayMessage(des: Cipher, r: Request, secret: Block, pad: Byte, tail: seq<Byte>): Message {
    Message(r.id, r.local, r.remote, CompletedSession, Raw(OkayPayload(des, secret, pad, tail)))
  }

  function DataMessage(des: Cipher, r: Request, secret: Block, mem: seq<Byte>, len: nat, tail: seq<Byte>): Message
    requires len < |mem|
  {
    Message(r.id, r.local, r.remote, CommunicatingSession, Raw(DataPayload(des, secret, mem, len, tail)))
  }

  datatype Exchange = Made(request: Request, message: Message) | Stopped(why: Abort)

  /** connection_request_create_exchange_message, by the state asked for. */
  function ExchangeMessage(des: Cipher, r: Request, incoming: Message, s: RequestState, ch: Chance): Exchange {
    match s
    case ChallengeReply => Made(r, ReplyMessage(r))
    case SessionKeyShare =>
      if !incoming.payload.PublicKey? then Stopped(BadPublicKey)
      else Made(r.(secret := Some(ch.secret)), KeyMessage(r, incoming.payload.owner, ch.secret))
    case Complete =>
      if r.secret.None? then Stopped(NoSecret)
      else Made(r, OkayMessage(des, r, r.secret.value, ch.pad, ch.tail))
    case _ => Stopped(NoMessage)
  }

  /** When there is an answer to build at all, and what a secret has to do with it. */
  lemma ExchangeIff(des: Cipher, r: Request, incoming: Message, s: RequestState, ch: Chance)
    ensures ExchangeMessage(des, r, incoming, s, ch).Made? <==>
            || s == ChallengeReply
            || (s == SessionKeyShare && incoming.payload.PublicKey?)
            || (s == Complete && r.secret.Some?)
    ensures
      var x := ExchangeMessage(des, r, incoming, s, ch);
      x.Made? ==>
        && x.message.id == r.id && x.message.sender == r.local && x.message.recipient == r.remote
        && x.request == (if s == SessionKeyShare then r.(secret := Some(ch.secret)) else r)
  {
  }

  // -------------------------------------------------------------------------- code

  class ConnectionRequest {
    const id: ConnId
    var state: RequestState
    var local: Guid
    var remote: Guid
    var keypair: Keypair
    var secret: Option<Block>

    function View(): Request
      reads this
    {
      Request(id, state, local, remote, keypair, secret)
    }

    /** connection_request_create, and the state its callers set at once. */
    constructor (id: ConnId, state: RequestState, local: Guid, remote: Guid, keypair: Keypair)
      ensures View() == Request(id, state, local, remote, keypair, None)
    {
      this.id, this.state := id, state;
      this.local, this.remote, this.keypair := local, remote, keypair;
      this.secret := None;
    }

    method CreateExchangeMessage(des: Cipher, incoming: Message, s: RequestState, ch: Chance)
      returns (message: Option<Message>, why: Abort)
      modifies this
      ensures
        match ExchangeMessage(des, old(View()), incoming, s, ch)
        case Made(r, m) => message == Some(m) && View() == r
        case Stopped(w) => message == None && why == w
    {
      why := NoMessage;
      message := None;
      if s == ChallengeReply {
        message := Some(Message(id, local, remote, RespondingCreatedSession, PublicKey(keypair)));
      } else if s == SessionKeyShare {
        match incoming.payload {
          case PublicKey(owner) =>
            secret := Some(ch.secret);
            message := Some(Message(id, local, remote, SharingSessionKey, Sealed(owner, ch.secret)));
          case _ =>
            why := BadPublicKey;
        }
      } else if s == Complete {
        match secret {
          case Some(k) =>
            var encrypted := SymmetricalEncrypt(des, k, OKAY + [NUL, ch.pad], 5);
            assert (OKAY + [NUL, ch.pad])[..6] == OKAY + [NUL, ch.pad];
            var sent := CStr(encrypted[..] + ch.tail);
            message := Some(Message(id, local, remote, CompletedSession, Raw(sent)));
          case None =>
            why := NoSecret;
        }
      }
    }

    /** connection_request_send_message: nothing without a secret. */
    method SendMessage(des: Cipher, mem: seq<Byte>, len: nat, tail: seq<Byte>) returns (message: Option<Message>)
      requires len < |mem|
      ensures message ==
              if secret.None? then None else Some(DataMessage(des, View(), secret.value, mem, len, tail))
    {
      match secret {
        case None =>
          message := None;
        case Some(k) =>
          var encrypted := SymmetricalEncrypt(des, k, mem, len);
          var buf := encrypted[..] + tail;
          message := Some(Message(id, local, remote, CommunicatingSession, Raw(CutAtNul(buf))));
      }
    }
  }
}
