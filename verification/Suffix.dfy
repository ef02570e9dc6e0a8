/** The suffix of a PTP message: a list of type, length, value fields converted in place (msg.c). */
module Suffix {
  import opened Prelude

  /** sizeof(struct TLV): two words of type and length. */
  const HEADER := 4
  const EBADMSG := 74

  /** What tlv_post_recv makes of a value: the converted value and the data it keeps aside, or an error. */
  datatype Got<X> = Good(value: seq<Byte>, extra: X) | Bad(value: seq<Byte>, error: int)

  /** tlv_post_recv and tlv_pre_send, as functions of the type and the value of a field. */
  datatype Codec<!X(!new)> = Codec(recv: (int, seq<Byte>) -> Got<X>, send: (int, seq<Byte>, Option<X>) -> seq<Byte>)
  {
    /** Values are converted in place. */
    ghost predicate InPlace() {
      && (forall t, v :: |recv(t, v).value| == |v| && (recv(t, v).Bad? ==> recv(t, v).error < 0))
      && (forall t, v, x :: |send(t, v, x)| == |v|)
    }
  }

  /** A word in network byte order, and in the byte order of the host, which is taken to be the opposite. */
  function Network(s: seq<Byte>, i: nat): (w: Word)
    requires i + 1 < |s|
  {
    var high: int, low: int := s[i], s[i + 1];
    256 * high + low
  }

  function Host(s: seq<Byte>, i: nat): (w: Word)
    requires i + 1 < |s|
  {
    var low: int, high: int := s[i], s[i + 1];
    low + 256 * high
  }

  /** The header at the front of s, with both words converted. */
  function Flipped(s: seq<Byte>): (h: seq<Byte>)
    requires |s| >= HEADER
    ensures |h| == HEADER
  {
    [s[1], s[0], s[3], s[2]]
  }

  datatype Outcome<X> =
    | Parsed(bytes: seq<Byte>, count: nat, extra: Option<X>)
    | Failed(bytes: seq<Byte>, error: int)

  /** The bytes after a suffix has been received, with the number of fields or an error. */
  function Received<X(!new)>(c: Codec<X>, s: seq<Byte>): (r: Outcome<X>)
    decreases |s|
  {
    if |s| <= HEADER then Parsed(s, 0, None)
    else
      var n := Network(s, 2);
      if n % 2 == 1 || n > |s| - HEADER then Failed(Flipped(s) + s[HEADER..], -EBADMSG)
      else
        var got := c.recv(Network(s, 0), s[HEADER..HEADER + n]);
        if got.Bad? then Failed(Flipped(s) + got.value + s[HEADER + n..], got.error)
        else
          Behind(Flipped(s) + got.value, 1, if |s| == HEADER + n then Some(got.extra) else None,
                 Received(c, s[HEADER + n..]))
  }

  /** An outcome for the bytes behind some that are done. */
  function Behind<X>(done: seq<Byte>, count: nat, extra: Option<X>, r: Outcome<X>): Outcome<X> {
    match r
    case Parsed(bytes, n, x) => Parsed(done + bytes, count + n, if x.Some? then x else extra)
    case Failed(bytes, error) => Failed(done + bytes, error)
  }

  /** s begins with the given number of fields, in host byte order. */
  predicate Shaped(s: seq<Byte>, count: nat)
    decreases count
  {
    count == 0 || (|s| >= HEADER && HEADER + Host(s, 2) <= |s| && Shaped(s[HEADER + Host(s, 2)..], count - 1))
  }

  /** The bytes after a suffix of count fields has been prepared for sending. */
  function Sent<X(!new)>(c: Codec<X>, s: seq<Byte>, count: nat, last: Option<X>): seq<Byte>
    requires Shaped(s, count)
    decreases count
  {
    if count == 0 then s
    else
      var n := Host(s, 2);
      Flipped(s) + c.send(Host(s, 0), s[HEADER..HEADER + n], if count == 1 then last else None)
      + Sent(c, s[HEADER + n..], count - 1, last)
  }

  /** The number of bytes behind the fields. */
  function Leftover(s: seq<Byte>, count: nat): nat
    requires Shaped(s, count)
    decreases count
  {
    if count == 0 then |s| else Leftover(s[HEADER + Host(s, 2)..], count - 1)
  }

  /** Where the fields begin when a suffix that starts at p is received, and when it is sent. */
  function ReceivedAt(s: seq<Byte>, p: nat): seq<nat>
    decreases |s|
  {
    if |s| <= HEADER || Network(s, 2) > |s| - HEADER then []
    else [p] + ReceivedAt(s[HEADER + Network(s, 2)..], p + HEADER + Network(s, 2))
  }

  function SentAt(s: seq<Byte>, count: nat, p: nat): seq<nat>
    requires Shaped(s, count)
    decreases count
  {
    if count == 0 then [] else [p] + SentAt(s[HEADER + Host(s, 2)..], count - 1, p + HEADER + Host(s, 2))
  }

  // ----- one field at a time

  lemma FlippedWords(s: seq<Byte>)
    requires |s| >= HEADER
    ensures Host(Flipped(s), 0) == Network(s, 0) && Host(Flipped(s), 2) == Network(s, 2)
    ensures Network(Flipped(s), 0) == Host(s, 0) && Network(Flipped(s), 2) == Host(s, 2)
    ensures Flipped(Flipped(s)) == s[..HEADER]
  {
  }

  /** The parts of a field and what is behind it. */
  lemma Parts(h: seq<Byte>, v: seq<Byte>, rest: seq<Byte>)
    requires |h| == HEADER
    ensures var s := h + v + rest;
            && s[..HEADER] == h && s[HEADER..HEADER + |v|] == v && s[HEADER + |v|..] == rest && Flipped(s) == Flipped(h)
            && Host(s, 0) == Host(h, 0) && Host(s, 2) == Host(h, 2)
            && Network(s, 0) == Network(h, 0) && Network(s, 2) == Network(h, 2)
  {
  }

  /** A field in front of a suffix in host byte order. */
  lemma FieldShaped(h: seq<Byte>, v: seq<Byte>, rest: seq<Byte>, count: nat, p: nat)
    requires |h| == HEADER && Host(h, 2) == |v| && Shaped(rest, count)
    ensures var s := h + v + rest;
            && Shaped(s, count + 1) && Leftover(s, count + 1) == Leftover(rest, count)
            && SentAt(s, count + 1, p) == [p] + SentAt(rest, count, p + HEADER + |v|)
  {
    Parts(h, v, rest);
  }

  lemma FieldSent<X(!new)>(c: Codec<X>, h: seq<Byte>, v: seq<Byte>, rest: seq<Byte>, count: nat, last: Option<X>)
    requires |h| == HEADER && Host(h, 2) == |v| && Shaped(rest, count)
    ensures var s := h + v + rest;
            && Shaped(s, count + 1)
            && Sent(c, s, count + 1, last) ==
               Flipped(h) + c.send(Host(h, 0), v, if count == 0 then last else None) + Sent(c, rest, count, last)
  {
    Parts(h, v, rest);
  }

  lemma FieldReceived<X(!new)>(c: Codec<X>, h: seq<Byte>, v: seq<Byte>, rest: seq<Byte>, p: nat)
    requires |h| == HEADER && Network(h, 2) == |v| && |v| % 2 == 0 && |v| + |rest| > 0 && c.recv(Network(h, 0), v).Good?
    ensures var s, got := h + v + rest, c.recv(Network(h, 0), v);
            && Received(c, s) ==
               Behind(Flipped(h) + got.value, 1, if rest == [] then Some(got.extra) else None, Received(c, rest))
            && ReceivedAt(s, p) == [p] + ReceivedAt(rest, p + HEADER + |v|)
  {
    Parts(h, v, rest);
  }

  /** A suffix that is parsed is empty but for a few bytes, or begins with a good field. */
  lemma FirstField<X(!new)>(c: Codec<X>, s: seq<Byte>) returns (h: seq<Byte>, v: seq<Byte>, rest: seq<Byte>)
    requires |s| > HEADER && Received(c, s).Parsed?
    ensures s == h + v + rest && |h| == HEADER && Network(h, 2) == |v| && |v| % 2 == 0 && |v| + |rest| > 0
    ensures c.recv(Network(h, 0), v).Good? && Received(c, rest).Parsed?
  {
    var n := Network(s, 2);
    h, v, rest := s[..HEADER], s[HEADER..HEADER + n], s[HEADER + n..];
  }

  // ----- receiving

  /** Receiving keeps the length of the suffix, whether it succeeds or not. */
  lemma {:induction false} ReceivedKeepsLength<X(!new)>(c: Codec<X>, s: seq<Byte>)
    requires c.InPlace()
    ensures |Received(c, s).bytes| == |s|
    decreases |s|
  {
    if |s| > HEADER && Network(s, 2) <= |s| - HEADER {
      ReceivedKeepsLength(c, s[HEADER + Network(s, 2)..]);
    }
  }

  /**
   A received suffix ends with at most four bytes that are no field, and the fields that have been
   counted are found again, at the same places, when it is sent.
   */
  lemma {:induction false} ReceivedIsShaped<X(!new)>(c: Codec<X>, s: seq<Byte>, p: nat)
    requires c.InPlace() && Received(c, s).Parsed?
    ensures var r := Received(c, s);
            && Shaped(r.bytes, r.count) && Leftover(r.bytes, r.count) <= HEADER
            && SentAt(r.bytes, r.count, p) == ReceivedAt(s, p)
            && (r.extra.Some? <==> r.count > 0 && Leftover(r.bytes, r.count) == 0)
    decreases |s|
  {
    hide Received, Shaped, Leftover, SentAt, ReceivedAt, Network, Host, Flipped;
    if |s| <= HEADER {
      NothingShaped(c, s, p);
    } else {
      var h, v, rest := FirstField(c, s);
      FieldReceived(c, h, v, rest, p);
      ReceivedIsShaped(c, rest, p + HEADER + |v|);
      FlippedWords(h);
      var r := Received(c, rest);
      FieldShaped(Flipped(h), c.recv(Network(h, 0), v).value, r.bytes, r.count, p);
      EmptyReceived(c, rest);
    }
  }

  lemma NothingShaped<X(!new)>(c: Codec<X>, s: seq<Byte>, p: nat)
    requires |s| <= HEADER
    ensures Received(c, s) == Parsed(s, 0, None) && Shaped(s, 0) && Leftover(s, 0) == |s|
    ensures SentAt(s, 0, p) == ReceivedAt(s, p)
  {
  }

  lemma EmptyReceived<X(!new)>(c: Codec<X>, s: seq<Byte>)
    requires c.InPlace() && Received(c, s).Parsed?
    ensures Received(c, s).count == 0 <==> |s| <= HEADER
    ensures var r := Received(c, s);
            r.count == 0 ==> Shaped(r.bytes, 0) && Leftover(r.bytes, 0) == |s|
  {
  }

  lemma NothingSent<X(!new)>(c: Codec<X>, s: seq<Byte>, last: Option<X>)
    requires |s| <= HEADER
    ensures Received(c, s) == Parsed(s, 0, None) && Shaped(s, 0) && Sent(c, s, 0, last) == s
  {
  }

  // ----- what is accepted

  type Value = v: seq<Byte> | |v| < 65536 witness []

  /** A field as it is on the network. */
  datatype Field = Field(kind: Word, value: Value)

  ghost predicate Acceptable<X(!new)>(c: Codec<X>, f: Field) {
    |f.value| % 2 == 0 && c.recv(f.kind, f.value).Good?
  }

  function Header(f: Field): (h: seq<Byte>)
    ensures |h| == HEADER && Network(h, 0) == f.kind && Network(h, 2) == |f.value|
  {
    var kind: int, n := f.kind, |f.value|;
    [kind / 256, kind % 256, n / 256, n % 256]
  }

  function Encoded(fs: seq<Field>): seq<Byte> {
    if fs == [] then [] else Header(fs[0]) + fs[0].value + Encoded(fs[1..])
  }

  lemma HeaderIsUnique(h: seq<Byte>, f: Field)
    requires |h| == HEADER && |f.value| == Network(h, 2) && f.kind == Network(h, 0)
    ensures h == Header(f)
  {
  }

  /** A suffix that is parsed consists of acceptable fields and at most four more bytes. */
  lemma {:induction false} ParsedIsFields<X(!new)>(c: Codec<X>, s: seq<Byte>) returns (fs: seq<Field>, tail: seq<Byte>)
    requires Received(c, s).Parsed?
    ensures (forall i :: 0 <= i < |fs| ==> Acceptable(c, fs[i])) && |tail| <= HEADER && s == Encoded(fs) + tail
    decreases |s|
  {
    if |s| <= HEADER {
      fs, tail := [], s;
    } else {
      var h, v, rest := FirstField(c, s);
      hide Received, Network, Flipped, Header;
      var gs;
      gs, tail := ParsedIsFields(c, rest);
      var f := Field(Network(h, 0), v);
      HeaderIsUnique(h, f);
      fs := [f] + gs;
      assert fs[1..] == gs;
      assert h + v + (Encoded(gs) + tail) == h + v + Encoded(gs) + tail;
    }
  }

  lemma EncodedParts(fs: seq<Field>, tail: seq<Byte>)
    requires fs != []
    ensures Encoded(fs) + tail == Header(fs[0]) + fs[0].value + (Encoded(fs[1..]) + tail)
  {
  }

  /**
   And every such suffix is parsed, with all its fields, except that a last one without a value needs bytes behind it.
   */
  lemma {:induction false} FieldsAreParsed<X(!new)>(c: Codec<X>, fs: seq<Field>, tail: seq<Byte>)
    requires (forall i :: 0 <= i < |fs| ==> Acceptable(c, fs[i])) && |tail| <= HEADER
    ensures var r := Received(c, Encoded(fs) + tail);
            && r.Parsed?
            && r.count == |fs| - (if fs != [] && fs[|fs| - 1].value == [] && tail == [] then 1 else 0)
  {
    hide Network, Flipped, Header, Received, Encoded;
    if fs == [] {
      NothingEncoded(c, tail);
    } else {
      var f, gs := fs[0], fs[1..];
      FieldsAreParsed(c, gs, tail);
      var rest := Encoded(gs) + tail;
      EncodedParts(fs, tail);
      EncodedLength(gs);
      if |f.value| + |rest| > 0 {
        FieldReceived(c, Header(f), f.value, rest, 0);
      } else {
        NothingSent(c, Encoded(fs) + tail, None);
      }
    }
  }

  lemma NothingEncoded<X(!new)>(c: Codec<X>, tail: seq<Byte>)
    requires |tail| <= HEADER
    ensures Received(c, Encoded([]) + tail) == Parsed(tail, 0, None)
  {
    assert Encoded([]) + tail == tail;
  }

  lemma {:induction false} EncodedLength(fs: seq<Field>)
    ensures |Encoded(fs)| >= HEADER * |fs| && (fs == [] ==> Encoded(fs) == [])
  {
    if fs != [] {
      EncodedLength(fs[1..]);
    }
  }

  // ----- sending what was received

  /** The fields of a suffix on the network, and what is behind them. */
  function FieldsOf(s: seq<Byte>): seq<Field>
    decreases |s|
  {
    if |s| <= HEADER || Network(s, 2) > |s| - HEADER then []
    else [Field(Network(s, 0), s[HEADER..HEADER + Network(s, 2)])] + FieldsOf(s[HEADER + Network(s, 2)..])
  }

  function TailOf(s: seq<Byte>): seq<Byte>
    decreases |s|
  {
    if |s| <= HEADER || Network(s, 2) > |s| - HEADER then s else TailOf(s[HEADER + Network(s, 2)..])
  }

  lemma FirstOf(h: seq<Byte>, v: seq<Byte>, rest: seq<Byte>)
    requires |h| == HEADER && Network(h, 2) == |v| && |v| + |rest| > 0
    ensures var s := h + v + rest;
            FieldsOf(s) == [Field(Network(h, 0), v)] + FieldsOf(rest) && TailOf(s) == TailOf(rest)
  {
    Parts(h, v, rest);
  }

  /** A value that has been received and is sent with x: the last field with the data kept aside, the others without. */
  function Resend<X(!new)>(c: Codec<X>, f: Field, x: Option<X>): (g: Field)
    requires c.InPlace()
    ensures g.kind == f.kind && |g.value| == |f.value|
  {
    var v: seq<Byte> := c.send(f.kind, c.recv(f.kind, f.value).value, x);
    f.(value := v)
  }

  function Resent<X(!new)>(c: Codec<X>, fs: seq<Field>, last: Option<X>): (gs: seq<Field>)
    requires c.InPlace()
    ensures |gs| == |fs|
    ensures forall i :: 0 <= i < |fs| ==> gs[i] == Resend(c, fs[i], if i == |fs| - 1 then last else None)
  {
    seq(|fs|, i requires 0 <= i < |fs| => Resend(c, fs[i], if i == |fs| - 1 then last else None))
  }

  /**
   Whatever the codec does, receiving and sending a suffix gives back the fields, with their kinds, lengths and
   places, and the bytes behind them; each value is what the codec makes of it on its own.
   */
  lemma {:induction false} SentOfReceived<X(!new)>(c: Codec<X>, s: seq<Byte>, last: Option<X>)
    requires c.InPlace() && Received(c, s).Parsed?
    ensures s == Encoded(FieldsOf(s)) + TailOf(s) && |TailOf(s)| <= HEADER
    ensures var r := Received(c, s);
            && r.count == |FieldsOf(s)| && Shaped(r.bytes, r.count)
            && Sent(c, r.bytes, r.count, last) == Encoded(Resent(c, FieldsOf(s), last)) + TailOf(s)
    decreases |s|
  {
    hide Received, Shaped, Network, Host, Flipped, Sent, Header, Resend, FieldsOf, TailOf, Encoded, Resent;
    if |s| <= HEADER {
      NothingSent(c, s, last);
      NoFields(c, s, last);
    } else {
      var h, v, rest := FirstField(c, s);
      FirstOf(h, v, rest);
      FieldReceived(c, h, v, rest, 0);
      SentOfReceived(c, rest, last);
      var r, got, fs := Received(c, rest), c.recv(Network(h, 0), v), FieldsOf(rest);
      FlippedWords(h);
      FieldSent(c, Flipped(h), got.value, r.bytes, r.count, last);
      var f := Field(Network(h, 0), v);
      HeaderIsUnique(h, f);
      EncodedFirst(f, fs, TailOf(rest));
      ResentFirst(c, f, fs, last);
      var g := Resend(c, f, if fs == [] then last else None);
      ResendMeans(c, f, if fs == [] then last else None);
      HeaderIsUnique(h, g);
      EncodedFirst(g, Resent(c, fs, last), TailOf(rest));
    }
  }

  lemma NoFields<X(!new)>(c: Codec<X>, s: seq<Byte>, last: Option<X>)
    requires |s| <= HEADER && c.InPlace()
    ensures FieldsOf(s) == [] && TailOf(s) == s && Encoded([]) + s == s && Resent(c, [], last) == []
  {
  }

  lemma ResendMeans<X(!new)>(c: Codec<X>, f: Field, x: Option<X>)
    requires c.InPlace()
    ensures Resend(c, f, x).value == c.send(f.kind, c.recv(f.kind, f.value).value, x)
  {
  }

  lemma ResentFirst<X(!new)>(c: Codec<X>, f: Field, fs: seq<Field>, last: Option<X>)
    requires c.InPlace()
    ensures Resent(c, [f] + fs, last) == [Resend(c, f, if fs == [] then last else None)] + Resent(c, fs, last)
  {
  }

  lemma EncodedFirst(f: Field, fs: seq<Field>, tail: seq<Byte>)
    ensures Encoded([f] + fs) + tail == Header(f) + f.value + (Encoded(fs) + tail)
  {
    assert ([f] + fs)[1..] == fs;
    EncodedParts([f] + fs, tail);
  }

  /** Fields of the same kinds and lengths have the same bytes only if they are the same. */
  lemma {:induction false} EncodedIsUnique(fs: seq<Field>, gs: seq<Field>, tail: seq<Byte>)
    requires |fs| == |gs| && forall i :: 0 <= i < |fs| ==> fs[i].kind == gs[i].kind && |fs[i].value| == |gs[i].value|
    ensures Encoded(fs) + tail == Encoded(gs) + tail ==> fs == gs
  {
    if fs != [] && Encoded(fs) + tail == Encoded(gs) + tail {
      hide Header;
      EncodedParts(fs, tail);
      EncodedParts(gs, tail);
      Parts(Header(fs[0]), fs[0].value, Encoded(fs[1..]) + tail);
      Parts(Header(gs[0]), gs[0].value, Encoded(gs[1..]) + tail);
      EncodedIsUnique(fs[1..], gs[1..], tail);
      assert fs == [fs[0]] + fs[1..] && gs == [gs[0]] + gs[1..];
    }
  }

  /** Sending undoes receiving for this field, when it is sent with x. */
  ghost predicate Undone<X(!new)>(c: Codec<X>, f: Field, x: Option<X>) {
    c.send(f.kind, c.recv(f.kind, f.value).value, x) == f.value
  }

  /**
   The exact condition for the round trip: every byte is restored if and only if every field but the last
   is undone without data kept aside, and the last one with what it is sent with.
   */
  lemma SentRestoresReceived<X(!new)>(c: Codec<X>, s: seq<Byte>, last: Option<X>)
    requires c.InPlace() && Received(c, s).Parsed?
    ensures var r, fs := Received(c, s), FieldsOf(s);
            && Shaped(r.bytes, r.count)
            && (Sent(c, r.bytes, r.count, last) == s <==>
                forall i :: 0 <= i < |fs| ==> Undone(c, fs[i], if i == |fs| - 1 then last else None))
  {
    hide Received, Shaped, Sent, FieldsOf, TailOf, Encoded;
    SentOfReceived(c, s, last);
    var fs := FieldsOf(s);
    EncodedIsUnique(Resent(c, fs, last), fs, TailOf(s));
    if forall i :: 0 <= i < |fs| ==> Undone(c, fs[i], if i == |fs| - 1 then last else None) {
      assert Resent(c, fs, last) == fs;
    }
  }

  // ----- a field that cannot be sent without the data kept aside

  const TLV_MANAGEMENT := 1
  const TLV_CLOCK_DESCRIPTION := 1
  const TRANSPORT_ADDR_LEN := 16
  const OUI_LEN := 3
  const PROFILE_ID_LEN := 6

  /** The place behind a text, which begins with its length in one byte, if it fits. */
  function BehindText(v: seq<Byte>, p: nat): (q: Option<nat>)
    ensures q.Some? ==> p < q.value <= |v|
  {
    if p < |v| && p + 1 + v[p] <= |v| then Some(p + 1 + v[p]) else None
  }

  /** The place behind an address, which follows its length in a word, if it fits. */
  function BehindAddress(v: seq<Byte>, p: nat): (q: Option<nat>)
    ensures q.Some? ==> p + 2 <= q.value <= |v|
  {
    if p + 2 <= |v| && Network(v, p) <= TRANSPORT_ADDR_LEN && p + 2 + Network(v, p) <= |v|
    then Some(p + 2 + Network(v, p))
    else None
  }

  /**
   The words of a clock description: clock type, length of the physical address, network protocol, length of the
   protocol address.  The identity of the management message is in front of them.  There are none in a value that is
   refused.
   */
  function DescriptionWords(v: seq<Byte>): (ps: Option<set<nat>>)
    ensures ps.Some? ==> forall p :: p in ps.value ==> 2 <= p && p + 1 < |v| && p + 1 !in ps.value
  {
    var physical := BehindText(v, 4);
    if physical.None? then None
    else
      var protocol := BehindAddress(v, physical.value);
      if protocol.None? then None
      else
        var maker := BehindAddress(v, protocol.value + 2);
        if maker.None? then None
        else
          var product := BehindText(v, maker.value + OUI_LEN + 1);
          if product.None? then None
          else
            var revision := BehindText(v, product.value);
            if revision.None? then None
            else
              var user := BehindText(v, revision.value);
              if user.None? then None
              else
                var end := user.value + PROFILE_ID_LEN;
                if end + end % 2 != |v| then None
                else Some({2, physical.value, protocol.value, protocol.value + 2})
  }

  /** What a clock description says; maker includes a reserved byte. */
  datatype Description = Description(
    clockType: Word, layer: seq<Byte>, physical: seq<Byte>, protocol: Word, address: seq<Byte>,
    maker: seq<Byte>, product: seq<Byte>, revision: seq<Byte>, user: seq<Byte>, profile: seq<Byte>)
  {
    ghost predicate Valid() {
      && |layer| < 256 && |product| < 256 && |revision| < 256 && |user| < 256
      && |physical| <= 16 && |address| <= 16 && |maker| == 4 && |profile| == 6
    }
  }

  function WordBytes(w: Word): (b: seq<Byte>)
    ensures |b| == 2
  {
    [w / 256, w % 256]
  }

  function TextBytes(t: seq<Byte>): (b: seq<Byte>)
    requires |t| < 256
    ensures |b| == 1 + |t|
  {
    [|t|] + t
  }

  function AddressBytes(a: seq<Byte>): (b: seq<Byte>)
    requires |a| <= 16
    ensures |b| == 2 + |a|
  {
    WordBytes(|a|) + a
  }

  /** The names of the product and what follows them. */
  ghost function NameBytes(d: Description, end: seq<Byte>): seq<Byte>
    requires d.Valid()
  {
    TextBytes(d.product) + (TextBytes(d.revision) + (TextBytes(d.user) + (d.profile + end)))
  }

  /** The order of everything on the wire, behind the identity and the clock type, in front of an end. */
  ghost function DescriptionBytes(d: Description, end: seq<Byte>): seq<Byte>
    requires d.Valid()
  {
    TextBytes(d.layer) + (AddressBytes(d.physical) + (WordBytes(d.protocol) + (AddressBytes(d.address) +
      (d.maker + NameBytes(d, end)))))
  }

  /** v is the description, with a byte behind it if that makes its length even. */
  ghost predicate Describes(v: seq<Byte>, d: Description, pad: seq<Byte>) {
    && d.Valid() && |v| >= 4 && v == v[..2] + WordBytes(d.clockType) + DescriptionBytes(d, pad)
    && |pad| == (|v| - |pad|) % 2
  }

  lemma TextRead(v: seq<Byte>, a: seq<Byte>, t: seq<Byte>, rest: seq<Byte>)
    requires |t| < 256 && v == a + (TextBytes(t) + rest)
    ensures BehindText(v, |a|) == Some(|a + TextBytes(t)|) && v == (a + TextBytes(t)) + rest
  {
    assert v[|a|] == TextBytes(t)[0];
  }

  lemma AddressRead(v: seq<Byte>, a: seq<Byte>, t: seq<Byte>, rest: seq<Byte>)
    requires |t| <= 16 && v == a + (AddressBytes(t) + rest)
    ensures BehindAddress(v, |a|) == Some(|a + AddressBytes(t)|) && v == (a + AddressBytes(t)) + rest
  {
    assert v[|a|] == AddressBytes(t)[0] && v[|a| + 1] == AddressBytes(t)[1];
  }

  lemma Skipped(v: seq<Byte>, a: seq<Byte>, b: seq<Byte>, rest: seq<Byte>)
    requires v == a + (b + rest)
    ensures v == (a + b) + rest
  {
  }

  /** Everything that is laid out as a description is taken for one, with its four words where they are. */
  lemma DescriptionIsRead(v: seq<Byte>, d: Description, pad: seq<Byte>)
    requires Describes(v, d, pad)
    ensures var physical := 5 + |d.layer|;
            var protocol := physical + 2 + |d.physical|;
            DescriptionWords(v) == Some({2, physical, protocol, protocol + 2})
  {
    hide BehindText, BehindAddress, TextBytes, AddressBytes, WordBytes;
    var names := NameBytes(d, pad);
    var a := v[..2] + WordBytes(d.clockType);
    TextRead(v, a, d.layer, AddressBytes(d.physical) + (WordBytes(d.protocol) + (AddressBytes(d.address) +
      (d.maker + names))));
    var b := a + TextBytes(d.layer);
    AddressRead(v, b, d.physical, WordBytes(d.protocol) + (AddressBytes(d.address) + (d.maker + names)));
    var e := b + AddressBytes(d.physical);
    Skipped(v, e, WordBytes(d.protocol), AddressBytes(d.address) + (d.maker + names));
    var f := e + WordBytes(d.protocol);
    AddressRead(v, f, d.address, d.maker + names);
    var g := f + AddressBytes(d.address);
    Skipped(v, g, d.maker, names);
    NamesRead(v, g + d.maker, d, pad);
  }

  lemma NamesRead(v: seq<Byte>, a: seq<Byte>, d: Description, pad: seq<Byte>)
    requires d.Valid() && v == a + NameBytes(d, pad)
    ensures var product := BehindText(v, |a|);
            && product.Some?
            && var revision := BehindText(v, product.value);
               && revision.Some?
               && var user := BehindText(v, revision.value);
                  user.Some? && user.value + 6 + |pad| == |v|
  {
    hide BehindText, TextBytes;
    TextRead(v, a, d.product, TextBytes(d.revision) + (TextBytes(d.user) + (d.profile + pad)));
    var b := a + TextBytes(d.product);
    TextRead(v, b, d.revision, TextBytes(d.user) + (d.profile + pad));
    var e := b + TextBytes(d.revision);
    TextRead(v, e, d.user, d.profile + pad);
  }

  lemma TextSlice(v: seq<Byte>, p: nat) returns (t: seq<Byte>, q: nat)
    requires BehindText(v, p).Some?
    ensures q == BehindText(v, p).value <= |v| && |t| < 256 && v[p..] == TextBytes(t) + v[q..]
  {
    q := BehindText(v, p).value;
    t := v[p + 1..q];
  }

  lemma WordSlice(v: seq<Byte>, p: nat) returns (w: Word)
    requires p + 2 <= |v|
    ensures w == Network(v, p) && v[p..] == WordBytes(w) + v[p + 2..]
  {
    w := Network(v, p);
    assert w / 256 == v[p] && w % 256 == v[p + 1];
  }

  lemma AddressSlice(v: seq<Byte>, p: nat) returns (a: seq<Byte>, q: nat)
    requires BehindAddress(v, p).Some?
    ensures q == BehindAddress(v, p).value <= |v| && |a| <= 16 && v[p..] == AddressBytes(a) + v[q..]
  {
    q := BehindAddress(v, p).value;
    a := v[p + 2..q];
    var w := WordSlice(v, p);
    assert v[p + 2..] == a + v[q..];
  }

  /** And nothing else is. */
  lemma DescriptionIsLaidOut(v: seq<Byte>) returns (d: Description, pad: seq<Byte>)
    requires DescriptionWords(v).Some?
    ensures Describes(v, d, pad)
  {
    hide BehindText, BehindAddress, TextBytes, AddressBytes, WordBytes, Network;
    var clockType := WordSlice(v, 2);
    var layer, p := TextSlice(v, 4);
    var physical, q := AddressSlice(v, p);
    var address, r := AddressSlice(v, q + 2);
    var protocol := WordSlice(v, q);
    var maker := v[r..r + 4];
    assert v[r..] == maker + v[r + 4..];
    var product, s := TextSlice(v, r + 4);
    var revision, t := TextSlice(v, s);
    var user, u := TextSlice(v, t);
    pad := v[u + 6..];
    assert v[u..] == v[u..u + 6] + pad;
    d := Description(
      clockType, layer, physical, protocol, address, maker, product, revision, user, v[u..u + 6]);
    assert v[r + 4..] == NameBytes(d, pad);
    assert v[4..] == DescriptionBytes(d, pad);
    assert v == v[..2] + v[2..];
    assert v[2..] == WordBytes(clockType) + v[4..];
  }

  /** The bytes of the words at the given places exchanged. */
  function FlipWords(v: seq<Byte>, ps: set<nat>): (w: seq<Byte>)
    ensures |w| == |v|
    ensures forall i :: 0 <= i < |v| ==>
              w[i] == if i in ps && i + 1 < |v| then v[i + 1] else if i > 0 && i - 1 in ps then v[i - 1] else v[i]
  {
    seq(|v|, i requires 0 <= i < |v| =>
      if i in ps && i + 1 < |v| then v[i + 1] else if i > 0 && i - 1 in ps then v[i - 1] else v[i])
  }

  /**
   What tlv.c does with a clock description, other fields being left alone here: receiving always converts its four
   words, and keeps their places aside; sending converts them back only where it is told their places.
   */
  function Descriptions(): Codec<set<nat>> {
    Codec(ReceiveDescription, SendDescription)
  }

  function ReceiveDescription(t: int, v: seq<Byte>): (g: Got<set<nat>>)
    ensures |g.value| == |v| && (g.Bad? ==> g.error < 0)
  {
    if t != TLV_MANAGEMENT || |v| <= 2 || Network(v, 0) != TLV_CLOCK_DESCRIPTION then Good(v, {})
    else if DescriptionWords(v).None? then Bad(v, -EBADMSG)
    else Good(FlipWords(v, {0} + DescriptionWords(v).value), DescriptionWords(v).value)
  }

  function SendDescription(t: int, w: seq<Byte>, x: Option<set<nat>>): (v: seq<Byte>)
    ensures |v| == |w|
  {
    if t != TLV_MANAGEMENT || |w| <= 2 || Host(w, 0) != TLV_CLOCK_DESCRIPTION then w
    else FlipWords(w, {0} + if x.Some? then x.value else {})
  }

  /** What is refused: a clock description that is more than its identity and not laid out as one. */
  lemma DescriptionIsRefused(t: int, v: seq<Byte>)
    ensures ReceiveDescription(t, v).Bad? <==>
            && t == 1 && |v| > 2 && v[0] == 0 && v[1] == 1
            && !exists d, pad :: Describes(v, d, pad)
    ensures t != 1 ==> ReceiveDescription(t, v) == Good(v, {}) && forall x :: SendDescription(t, v, x) == v
  {
    hide DescriptionWords, Describes, FlipWords;
    forall d, pad | Describes(v, d, pad)
      ensures DescriptionWords(v).Some?
    {
      DescriptionIsRead(v, d, pad);
    }
    if DescriptionWords(v).Some? {
      var d, pad := DescriptionIsLaidOut(v);
    }
  }

  lemma DescriptionsInPlace()
    ensures Descriptions().InPlace()
  {
    hide DescriptionWords, Network, Host;
  }

  /** The codec converts this clock description as tlv.c does, whatever it does with other fields. */
  ghost predicate Converts(c: Codec<set<nat>>, f: Field) {
    var g := ReceiveDescription(f.kind, f.value);
    c.recv(f.kind, f.value) == g && forall x :: c.send(f.kind, g.value, x) == SendDescription(f.kind, g.value, x)
  }

  ghost predicate IsDescription(f: Field) {
    && f.kind == TLV_MANAGEMENT && |f.value| > 2 && Network(f.value, 0) == TLV_CLOCK_DESCRIPTION
    && DescriptionWords(f.value).Some?
  }

  /** The words read the same in both byte orders. */
  ghost predicate Symmetric(f: Field)
    requires IsDescription(f)
  {
    forall p :: p in DescriptionWords(f.value).value ==> f.value[p] == f.value[p + 1]
  }

  lemma FlipTwice(v: seq<Byte>, ps: set<nat>)
    requires forall p :: p in ps ==> 2 <= p && p + 1 < |v| && p + 1 !in ps
    requires |v| > 2
    ensures FlipWords(FlipWords(v, {0} + ps), {0} + ps) == v
    ensures FlipWords(FlipWords(v, {0} + ps), {0}) == FlipWords(v, ps)
    ensures FlipWords(v, ps) == v <==> forall p :: p in ps ==> v[p] == v[p + 1]
  {
    var w := FlipWords(v, {0} + ps);
    var u := FlipWords(w, {0});
    forall i | 0 <= i < |v|
      ensures FlipWords(w, {0} + ps)[i] == v[i] && u[i] == FlipWords(v, ps)[i]
    {
    }
    if FlipWords(v, ps) == v {
      forall p | p in ps
        ensures v[p] == v[p + 1]
      {
        assert FlipWords(v, ps)[p] == v[p + 1];
      }
    }
  }

  lemma IdentityConverted(v: seq<Byte>, w: seq<Byte>)
    requires |v| == |w| > 2 && w[0] == v[1] && w[1] == v[0]
    ensures Host(w, 0) == Network(v, 0)
  {
  }

  /**
   A clock description is undone when it is sent with its places, and without them only if there was nothing to
   convert.
   */
  lemma DescriptionNeedsItsPlaces(c: Codec<set<nat>>, f: Field)
    requires IsDescription(f) && Converts(c, f)
    ensures Undone(c, f, Some(c.recv(f.kind, f.value).extra))
    ensures Undone(c, f, None) <==> Symmetric(f)
  {
    hide DescriptionWords, Network, Host, FlipWords;
    var ps := DescriptionWords(f.value).value;
    var w := FlipWords(f.value, {0} + ps);
    assert c.recv(f.kind, f.value) == Good(w, ps);
    FlipTwice(f.value, ps);
    IdentityConverted(f.value, w);
    assert {0} + {} == {0};
    assert c.send(f.kind, w, Some(ps)) == FlipWords(w, {0} + ps) && c.send(f.kind, w, None) == FlipWords(w, {0});
  }

  /** So a clock description in front of another field comes out changed, whatever else is in the suffix. */
  lemma DescriptionInFrontIsChanged(c: Codec<set<nat>>, s: seq<Byte>, last: Option<set<nat>>, i: nat)
    requires c.InPlace() && Received(c, s).Parsed? && i + 1 < |FieldsOf(s)|
    requires var f := FieldsOf(s)[i]; IsDescription(f) && Converts(c, f) && !Symmetric(f)
    ensures var r := Received(c, s);
            Shaped(r.bytes, r.count) && Sent(c, r.bytes, r.count, last) != s
  {
    hide Received, Shaped, Sent, FieldsOf, Converts, Symmetric, IsDescription;
    DescriptionNeedsItsPlaces(c, FieldsOf(s)[i]);
    SentRestoresReceived(c, s, last);
  }

  /** The shortest clock description, of an ordinary clock. */
  function ShortestDescription(): (f: Field)
    ensures f.kind == TLV_MANAGEMENT && |f.value| == 24
    ensures forall i :: 0 <= i < 24 ==> f.value[i] == if i == 1 || i == 8 then 1 else if i == 2 then 128 else 0
  {
    var v: seq<Byte> := seq(24, i => if i == 1 || i == 8 then 1 else if i == 2 then 128 else 0);
    Field(TLV_MANAGEMENT, v)
  }

  lemma ShortestIsDescription()
    ensures IsDescription(ShortestDescription()) && !Symmetric(ShortestDescription())
  {
    var f := ShortestDescription();
    WordsOfShortest(f.value);
    hide DescriptionWords, ShortestDescription;
    assert f.value[2] != f.value[3];
  }

  lemma WordsOfShortest(v: seq<Byte>)
    requires |v| == 24 && v[3] == 0 && (forall i :: 4 <= i < 24 && i != 8 ==> v[i] == 0) && v[8] == 1
    ensures DescriptionWords(v) == Some({2, 5, 7, 9})
  {
    assert BehindText(v, 4) == Some(5);
    assert BehindAddress(v, 5) == Some(7);
    assert BehindAddress(v, 9) == Some(11);
    assert BehindText(v, 15) == Some(16);
    assert BehindText(v, 16) == Some(17);
    assert BehindText(v, 17) == Some(18);
    hide BehindText, BehindAddress;
  }

  /**
   A suffix with nothing left over that is not restored: the shortest clock description in front of any other field
   with a value.
   */
  lemma DescriptionLosesWords(f: Field, last: Option<set<nat>>)
    requires f.kind != TLV_MANAGEMENT && |f.value| > 0 && |f.value| % 2 == 0
    ensures var c, s := Descriptions(), Encoded([ShortestDescription(), f]);
            && Received(c, s).Parsed? && Received(c, s).count == 2 && TailOf(s) == []
            && Shaped(Received(c, s).bytes, 2) && Sent(c, Received(c, s).bytes, 2, last) != s
  {
    var c, d := Descriptions(), ShortestDescription();
    var fs := [d, f];
    var s := Encoded(fs);
    DescriptionsInPlace();
    ShortestIsDescription();
    DescriptionConverted(d);
    hide Received, Shaped, Sent, DescriptionWords, Converts, ReceiveDescription, SendDescription;
    hide Header, ShortestDescription, Network, IsDescription, Symmetric;
    OtherAccepted(f);
    FieldsAreParsed(c, fs, []);
    var rest := Encoded([f]);
    EncodedFirst(d, [f], []);
    EncodedFirst(f, [], []);
    assert [d] + [f] == fs && [f] + [] == [f] && Encoded([]) == [];
    assert Encoded(fs) + [] == s && rest + [] == rest && [] + [] == Encoded([]) + [];
    assert rest == Header(f) + f.value + [] && s == Header(d) + d.value + rest;
    FirstOf(Header(d), d.value, rest);
    FirstOf(Header(f), f.value, []);
    NoFields(c, [], last);
    assert FieldsOf(s) == [d] + ([f] + []) && FieldsOf(s)[0] == d;
    DescriptionInFrontIsChanged(c, s, last, 0);
  }

  lemma DescriptionConverted(f: Field)
    requires IsDescription(f) && |f.value| % 2 == 0
    ensures Converts(Descriptions(), f) && Acceptable(Descriptions(), f)
  {
    hide DescriptionWords;
  }

  lemma OtherAccepted(f: Field)
    requires f.kind != TLV_MANAGEMENT && |f.value| % 2 == 0
    ensures Acceptable(Descriptions(), f)
  {
  }

  // ----- receiving what was sent

  /** All that is left for the last field is its header, so that receiving takes it for leftover bytes. */
  predicate Unseen(s: seq<Byte>, count: nat)
    requires Shaped(s, count)
    decreases count
  {
    count > 0 && (if count == 1 then |s| == HEADER else Unseen(s[HEADER + Host(s, 2)..], count - 1))
  }

  /** The field has an even length, and its value is accepted and converted back after it was sent with x. */
  ghost predicate ComesBack<X(!new)>(c: Codec<X>, kind: int, v: seq<Byte>, x: Option<X>) {
    |v| % 2 == 0 && c.recv(kind, c.send(kind, v, x)).Good? && c.recv(kind, c.send(kind, v, x)).value == v
  }

  /** Every field of a suffix comes back that receiving takes for one. */
  ghost predicate AllComeBack<X(!new)>(c: Codec<X>, s: seq<Byte>, count: nat, last: Option<X>)
    requires Shaped(s, count)
    decreases count
  {
    || count == 0 || |s| == HEADER
    || (var n := Host(s, 2);
        && ComesBack(c, Host(s, 0), s[HEADER..HEADER + n], if count == 1 then last else None)
        && AllComeBack(c, s[HEADER + n..], count - 1, last))
  }

  lemma FirstShaped(s: seq<Byte>, count: nat) returns (h: seq<Byte>, v: seq<Byte>, rest: seq<Byte>)
    requires count > 0 && Shaped(s, count)
    ensures s == h + v + rest && |h| == HEADER && Host(h, 2) == |v| && Shaped(rest, count - 1)
    ensures Leftover(s, count) == Leftover(rest, count - 1)
    ensures |v| + |rest| > 0 ==> Unseen(s, count) == Unseen(rest, count - 1)
    ensures |v| + |rest| == 0 ==> count == 1 && Unseen(s, count)
  {
    var n := Host(s, 2);
    h, v, rest := s[..HEADER], s[HEADER..HEADER + n], s[HEADER + n..];
  }

  lemma FirstComesBack<X(!new)>(c: Codec<X>, h: seq<Byte>, v: seq<Byte>, rest: seq<Byte>, count: nat, last: Option<X>)
    requires |h| == HEADER && Host(h, 2) == |v| && Shaped(rest, count)
    ensures var s := h + v + rest;
            && Shaped(s, count + 1)
            && (AllComeBack(c, s, count + 1, last) <==>
                |v| + |rest| == 0 ||
                (ComesBack(c, Host(h, 0), v, if count == 0 then last else None) && AllComeBack(c, rest, count, last)))
  {
    Parts(h, v, rest);
  }

  lemma {:induction false} SentKeepsLength<X(!new)>(c: Codec<X>, s: seq<Byte>, count: nat, last: Option<X>)
    requires c.InPlace() && Shaped(s, count)
    ensures |Sent(c, s, count, last)| == |s|
    ensures Unseen(s, count) ==> |s| >= HEADER
    decreases count
  {
    if count > 0 {
      SentKeepsLength(c, s[HEADER + Host(s, 2)..], count - 1, last);
    }
  }

  /** The header of an unseen field stays unconverted. */
  function Unparsed(s: seq<Byte>, unseen: bool): seq<Byte>
    requires unseen ==> |s| >= HEADER
  {
    if unseen then s[..|s| - HEADER] + Flipped(s[|s| - HEADER..]) else s
  }

  /** Receiving gives back the fields that were sent, but for a last one that is not seen. */
  ghost predicate GivesBack<X(!new)>(r: Outcome<X>, s: seq<Byte>, count: nat, unseen: bool)
    requires unseen ==> |s| >= HEADER
  {
    r.Parsed? && r.count == count - (if unseen then 1 else 0) && r.bytes == Unparsed(s, unseen)
  }

  /**
   The exact condition for the other round trip: receiving a sent suffix gives the same bytes and the same count, but
   for a last field without value, if and only if every field has an even length, is accepted, and is converted back.
   */
  lemma {:induction false} ReceivedRestoresSent<X(!new)>(c: Codec<X>, s: seq<Byte>, count: nat, last: Option<X>)
    requires c.InPlace() && Shaped(s, count) && Leftover(s, count) <= HEADER
    ensures Unseen(s, count) ==> |s| >= HEADER
    ensures GivesBack(Received(c, Sent(c, s, count, last)), s, count, Unseen(s, count)) <==>
            AllComeBack(c, s, count, last)
    decreases count
  {
    hide Received, Shaped, Leftover, ReceivedAt, Network, Host, Flipped, Sent, Unseen, Unparsed, AllComeBack, GivesBack;
    SentKeepsLength(c, s, count, last);
    if count == 0 {
      NothingGivesBack(c, s, last);
    } else {
      var h, v, rest := FirstShaped(s, count);
      FlippedWords(h);
      FieldSent(c, h, v, rest, count - 1, last);
      FirstComesBack(c, h, v, rest, count - 1, last);
      SentKeepsLength(c, rest, count - 1, last);
      ReceivedRestoresSent(c, rest, count - 1, last);
      var x := if count == 1 then last else None;
      var sent, after := c.send(Host(h, 0), v, x), Sent(c, rest, count - 1, last);
      if |v| + |rest| == 0 {
        LastHeader(c, h, v, rest, sent, after);
      } else {
        FieldGivesBack(c, h, v, rest, sent, after, count - 1, Unseen(rest, count - 1));
      }
    }
  }

  lemma NothingGivesBack<X(!new)>(c: Codec<X>, s: seq<Byte>, last: Option<X>)
    requires Shaped(s, 0) && Leftover(s, 0) <= HEADER
    ensures !Unseen(s, 0) && AllComeBack(c, s, 0, last) && GivesBack(Received(c, Sent(c, s, 0, last)), s, 0, false)
  {
  }

  lemma LastHeader<X(!new)>(c: Codec<X>, h: seq<Byte>, v: seq<Byte>, rest: seq<Byte>, sent: seq<Byte>, after: seq<Byte>)
    requires |h| == HEADER && v == [] == rest && sent == [] == after
    ensures GivesBack(Received(c, Flipped(h) + sent + after), h + v + rest, 1, true)
  {
    var s := h + v + rest;
    assert s == h && h[|h| - HEADER..] == h && h[..|h| - HEADER] == [];
    assert Flipped(h) + sent + after == Flipped(h);
  }

  lemma FieldGivesBack<X(!new)>(
    c: Codec<X>, h: seq<Byte>, v: seq<Byte>, rest: seq<Byte>, sent: seq<Byte>, after: seq<Byte>, count: nat,
    unseen: bool)
    requires c.InPlace() && |h| == HEADER && Host(h, 2) == |v| == |sent| && |after| == |rest| && |v| + |rest| > 0
    requires unseen ==> |rest| >= HEADER
    ensures GivesBack(Received(c, Flipped(h) + sent + after), h + v + rest, count + 1, unseen) <==>
            && |v| % 2 == 0 && c.recv(Host(h, 0), sent).Good? && c.recv(Host(h, 0), sent).value == v
            && GivesBack(Received(c, after), rest, count, unseen)
  {
    hide Received, Network, Host, Flipped, Unparsed;
    FlippedWords(h);
    UnparsedBehind(h, v, rest, unseen);
    var got := c.recv(Host(h, 0), sent);
    if |v| % 2 == 0 && got.Good? {
      FieldReceived(c, Flipped(h), sent, after, 0);
      var r := Received(c, after);
      if r.Parsed? {
        SameParts(h, got.value, r.bytes, v, Unparsed(rest, unseen));
      }
    } else {
      FieldRefused(c, Flipped(h), sent, after);
    }
  }

  lemma SameParts(h: seq<Byte>, v: seq<Byte>, rest: seq<Byte>, v': seq<Byte>, rest': seq<Byte>)
    requires |h| == HEADER && |v| == |v'|
    ensures h + v + rest == h + v' + rest' <==> v == v' && rest == rest'
  {
    Parts(h, v, rest);
    Parts(h, v', rest');
  }

  lemma FieldRefused<X(!new)>(c: Codec<X>, h: seq<Byte>, v: seq<Byte>, rest: seq<Byte>)
    requires |h| == HEADER && Network(h, 2) == |v| && |v| + |rest| > 0
    requires |v| % 2 == 1 || c.recv(Network(h, 0), v).Bad?
    ensures Received(c, h + v + rest).Failed?
  {
    Parts(h, v, rest);
  }

  lemma UnparsedBehind(h: seq<Byte>, v: seq<Byte>, rest: seq<Byte>, unseen: bool)
    requires |h| == HEADER && (unseen ==> |rest| >= HEADER)
    ensures Unparsed(h + v + rest, unseen) == h + v + Unparsed(rest, unseen) && Flipped(Flipped(h)) == h
  {
    if unseen {
      var s := h + v + rest;
      assert s[|s| - HEADER..] == rest[|rest| - HEADER..];
      assert s[..|s| - HEADER] == h + v + rest[..|rest| - HEADER];
    }
  }

  // ----- in place

  /** Nothing but the elements from i to j has changed. */
  ghost predicate Within(a: seq<Byte>, b: seq<Byte>, i: nat, j: nat) {
    |a| == |b| && forall k :: 0 <= k < |a| && !(i <= k < j) ==> b[k] == a[k]
  }

  method Store(buf: array<Byte>, p: nat, w: seq<Byte>)
    requires p + |w| <= buf.Length
    modifies buf
    ensures buf[p..p + |w|] == w && Within(old(buf[..]), buf[..], p, p + |w|)
  {
    for i := 0 to |w|
      invariant forall k :: 0 <= k < i ==> buf[p + k] == w[k]
      invariant forall k :: 0 <= k < buf.Length && !(p <= k < p + i) ==> buf[k] == old(buf[k])
    {
      buf[p + i] := w[i];
    }
  }

  method FlipHeader(buf: array<Byte>, p: nat)
    requires p + HEADER <= buf.Length
    modifies buf
    ensures buf[p..p + HEADER] == Flipped(old(buf[p..p + HEADER])) && Within(old(buf[..]), buf[..], p, p + HEADER)
  {
    buf[p], buf[p + 1] := buf[p + 1], buf[p];
    buf[p + 2], buf[p + 3] := buf[p + 3], buf[p + 2];
  }

  lemma BehindBehind<X>(d: seq<Byte>, n: nat, x: Option<X>, d': seq<Byte>, n': nat, x': Option<X>, r: Outcome<X>)
    ensures Behind(d, n, x, Behind(d', n', x', r)) == Behind(d + d', n + n', if x'.Some? then x' else x, r)
  {
    assert (d + d') + r.bytes == d + (d' + r.bytes);
  }

  lemma BehindNothing<X>(r: Outcome<X>)
    ensures Behind([], 0, None, r) == r
  {
    assert [] + r.bytes == r.bytes;
  }

  lemma FlippedPrefix(s: seq<Byte>)
    requires |s| >= HEADER
    ensures Flipped(s) == Flipped(s[..HEADER]) && Network(s, 0) == Network(s[..HEADER], 0)
    ensures Network(s, 2) == Network(s[..HEADER], 2)
  {
  }

  /** After the first two changes of a buffer, one behind the other. */
  lemma WithinBoth(a: seq<Byte>, b: seq<Byte>, d: seq<Byte>, i: nat, j: nat, k: nat)
    requires i <= j <= k <= |a| && Within(a, b, i, j) && Within(b, d, j, k)
    ensures Within(a, d, i, k) && d[i..k] == b[i..j] + d[j..k] && b[j..k] == a[j..k]
  {
    assert d[i..j] == b[i..j];
  }

  lemma SameSlice(a: seq<Byte>, b: seq<Byte>, i: nat, j: nat)
    requires i <= j <= |a| && j <= |b| && forall k :: i <= k < j ==> b[k] == a[k]
    ensures b[i..j] == a[i..j]
  {
  }

  lemma JoinedSlices(a: seq<Byte>, i: nat, j: nat, k: nat)
    requires i <= j <= k <= |a|
    ensures a[i..k] == a[i..j] + a[j..k] && a[i..k][j - i..] == a[j..k]
  {
  }

  /** What one change of a buffer leaves before and behind it. */
  lemma WithinSlices(a: seq<Byte>, b: seq<Byte>, start: nat, i: nat, j: nat, end: nat)
    requires start <= i <= j <= end <= |a| && Within(a, b, i, j)
    ensures b[start..j] == a[start..i] + b[i..j] && b[j..end] == a[i..end][j - i..]
    ensures b[start..end] == a[start..i] + (b[i..j] + b[j..end])
    ensures Within(a, b, start, end)
  {
    SameSlice(a, b, start, i);
    SameSlice(a, b, j, end);
    JoinedSlices(b, start, i, j);
    JoinedSlices(a, i, j, end);
    JoinedSlices(b, start, i, end);
    JoinedSlices(b, i, j, end);
  }

  /** b is the buffer a after the header at p has been converted. */
  ghost predicate HeaderConverted(a: seq<Byte>, b: seq<Byte>, p: nat) {
    p + HEADER <= |a| && Within(a, b, p, p + HEADER) && b[p..p + HEADER] == Flipped(a[p..p + HEADER])
  }

  lemma ConvertedHeader(a: seq<Byte>, b: seq<Byte>, p: nat, len: nat)
    requires HeaderConverted(a, b, p) && len > HEADER && p + len <= |a|
    ensures var s, h := a[p..p + len], b[p..p + HEADER];
            && Host(h, 0) == Network(s, 0) && Host(h, 2) == Network(s, 2) && h == Flipped(s)
            && b[p + HEADER..p + len] == s[HEADER..] && b[p..p + len] == h + s[HEADER..] && Within(a, b, p, p + len)
  {
    hide Host, Network, Flipped;
    var s := a[p..p + len];
    SubSlices(a, p, p + HEADER, p + len);
    FlippedPrefix(s);
    FlippedWords(s[..HEADER]);
    hide Within;
    WithinSlices(a, b, p, p, p + HEADER, p + len);
  }

  lemma ConvertedRefused<X(!new)>(c: Codec<X>, a: seq<Byte>, b: seq<Byte>, p: nat, len: nat)
    requires HeaderConverted(a, b, p) && len > HEADER && p + len <= |a|
    requires var n := Host(b[p..p + HEADER], 2);
             n % 2 == 1 || n > len - HEADER
    ensures Received(c, a[p..p + len]) == Failed(b[p..p + len], -EBADMSG) && Within(a, b, p, p + len)
  {
    hide Host, Network, Flipped, Received, Within, HeaderConverted;
    ConvertedHeader(a, b, p, len);
    RefusedLength(c, a[p..p + len]);
  }

  /** d is the buffer b after the n bytes behind the header at p have been converted too. */
  lemma ValueSlices(a: seq<Byte>, b: seq<Byte>, d: seq<Byte>, p: nat, n: nat, len: nat)
    requires Within(a, b, p, p + HEADER) && Within(b, d, p + HEADER, p + HEADER + n) && HEADER + n <= len
    requires p + len <= |a|
    ensures var s := a[p..p + len];
            && |b| == |d| == |a| && b[p + HEADER..p + HEADER + n] == s[HEADER..HEADER + n]
            && d[p..p + HEADER + n] == b[p..p + HEADER] + d[p + HEADER..p + HEADER + n]
            && d[p..p + len] == d[p..p + HEADER + n] + s[HEADER + n..]
            && Within(a, d, p, p + HEADER + n) && Within(a, d, p, p + len)
  {
    WithinBoth(a, b, d, p, p + HEADER, p + HEADER + n);
    WithinSlices(a, d, p, p, p + HEADER + n, p + len);
    assert b[p + HEADER..p + HEADER + n] == a[p + HEADER..p + HEADER + n];
  }

  lemma ConvertedValue<X(!new)>(c: Codec<X>, s: seq<Byte>, h: seq<Byte>, value: seq<Byte>, got: Got<X>)
    requires |s| > HEADER && h == Flipped(s) && Network(s, 2) % 2 == 0 && HEADER + Network(s, 2) <= |s|
    requires got == c.recv(Network(s, 0), s[HEADER..HEADER + Network(s, 2)]) && value == got.value
    ensures var n := Network(s, 2);
            if got.Bad? then Received(c, s) == Failed(h + value + s[HEADER + n..], got.error)
            else
              Received(c, s) ==
              Behind(h + value, 1, if HEADER + n == |s| then Some(got.extra) else None, Received(c, s[HEADER + n..]))
  {
  }

  /** Converts the field at p, where the suffix has len more bytes; n is the length of its value. */
  method ConvertField<X(!new)>(
    buf: array<Byte>, p: nat, len: nat, c: Codec<X>) returns (error: int, n: nat, extra: Option<X>)
    requires p + len <= buf.Length && len > HEADER && c.InPlace()
    modifies buf
    ensures Within(old(buf[..]), buf[..], p, p + len)
    ensures var s := old(buf[p..p + len]);
            if error != 0 then Received(c, s) == Failed(buf[p..p + len], error)
            else
              && HEADER + n <= len && Within(old(buf[..]), buf[..], p, p + HEADER + n) && extra.Some?
              && Received(c, s) ==
                 Behind(buf[p..p + HEADER + n], 1, if HEADER + n == len then extra else None,
                        Received(c, s[HEADER + n..]))
  {
    hide Flipped, Network, Received, Host, Within;
    ghost var a := buf[..];
    FlipHeader(buf, p);
    ghost var b := buf[..];
    var kind, length := Host(buf[p..p + HEADER], 0), Host(buf[p..p + HEADER], 2);
    n := length;
    if n % 2 == 1 || n > len - HEADER {
      ConvertedRefused(c, a, b, p, len);
      return -EBADMSG, n, None;
    }
    var got := c.recv(kind, buf[p + HEADER..p + HEADER + n]);
    Store(buf, p + HEADER, got.value);
    ConvertedHeader(a, b, p, len);
    ValueSlices(a, b, buf[..], p, n, len);
    ConvertedValue(c, a[p..p + len], b[p..p + HEADER], buf[p + HEADER..p + HEADER + n], got);
    error, extra := if got.Bad? then got.error else 0, if got.Bad? then None else Some(got.extra);
  }

  lemma SubSlices(a: seq<Byte>, i: nat, j: nat, end: nat)
    requires i <= j <= end <= |a|
    ensures a[i..end][..j - i] == a[i..j]
  {
  }

  lemma RefusedLength<X(!new)>(c: Codec<X>, s: seq<Byte>)
    requires |s| > HEADER && (Network(s, 2) % 2 == 1 || Network(s, 2) > |s| - HEADER)
    ensures Received(c, s) == Failed(Flipped(s) + s[HEADER..], -EBADMSG)
  {
  }

  lemma WithinTwice(a: seq<Byte>, b: seq<Byte>, d: seq<Byte>, i: nat, j: nat)
    requires Within(a, b, i, j) && Within(b, d, i, j)
    ensures Within(a, d, i, j)
  {
  }

  /**
   A received message may come without a suffix; last is the data kept aside for the last field, which stays as it was
   unless the suffix ends with a field.
   */
  method PostRecv<X(!new)>(
    suffix: Option<array<Byte>>, start: nat, length: nat, c: Codec<X>, last0: Option<X>)
    returns (result: int, last: Option<X>)
    requires (suffix.Some? ==> start + length <= suffix.value.Length) && c.InPlace()
    modifies if suffix.Some? then {suffix.value} else {}
    ensures suffix.None? ==> result == 0 && last == last0
    ensures suffix.Some? ==>
              ReceivedInPlace(c, start, length, last0, old(suffix.value[..]), suffix.value[..], result, last)
  {
    if suffix.None? {
      return 0, last0;
    }
    result, last := PostRecvBytes(suffix.value, start, length, c, last0);
  }

  /** The buffer after a suffix in it has been received, with what receiving it gives out. */
  ghost predicate ReceivedInPlace<X(!new)>(
    c: Codec<X>, start: nat, length: nat, last0: Option<X>, a: seq<Byte>, b: seq<Byte>, result: int, last: Option<X>)
  {
    && start + length <= |a| == |b| && Within(a, b, start, start + length)
    && match Received(c, a[start..start + length])
       case Parsed(bytes, count, extra) =>
         bytes == b[start..start + length] && result == count && last == (if extra.Some? then extra else last0)
       case Failed(bytes, error) => bytes == b[start..start + length] && result == error
  }

  /** The state of receiving: the bytes from start to p are done. */
  ghost predicate Receiving<X(!new)>(
    c: Codec<X>, a: seq<Byte>, b: seq<Byte>, start: nat, p: nat, end: nat, count: nat, extra: Option<X>)
  {
    && start <= p <= end <= |a| == |b| && Within(a, b, start, end)
    && Received(c, a[start..end]) == Behind(b[start..p], count, extra, Received(c, b[p..end]))
  }

  lemma ReceivingStarts<X(!new)>(c: Codec<X>, a: seq<Byte>, start: nat, end: nat)
    requires start <= end <= |a|
    ensures Receiving(c, a, a, start, start, end, 0, None)
  {
    hide Received;
    BehindNothing(Received(c, a[start..end]));
    assert a[start..start] == [];
  }

  lemma ReceivingStep<X(!new)>(
    c: Codec<X>, a: seq<Byte>, b: seq<Byte>, d: seq<Byte>, start: nat, p: nat, q: nat, end: nat, count: nat,
    extra: Option<X>, x: Option<X>)
    requires Receiving(c, a, b, start, p, end, count, extra) && p <= q <= end && Within(b, d, p, q)
    requires Received(c, b[p..end]) == Behind(d[p..q], 1, x, Received(c, b[p..end][q - p..]))
    ensures Receiving(c, a, d, start, q, end, count + 1, if x.Some? then x else extra)
  {
    hide Received, Within;
    WithinSlices(b, d, start, p, q, end);
    WithinTwice(a, b, d, start, end);
    BehindBehind(b[start..p], count, extra, d[p..q], 1, x, Received(c, d[q..end]));
  }

  lemma ReceivingFails<X(!new)>(
    c: Codec<X>, a: seq<Byte>, b: seq<Byte>, d: seq<Byte>, start: nat, p: nat, end: nat, count: nat,
    extra: Option<X>, error: int, last: Option<X>)
    requires Receiving(c, a, b, start, p, end, count, extra) && Within(b, d, p, end)
    requires Received(c, b[p..end]) == Failed(d[p..end], error)
    ensures ReceivedInPlace(c, start, end - start, last, a, d, error, last)
  {
    hide Received, Within;
    WithinSlices(b, d, start, p, end, end);
    WithinTwice(a, b, d, start, end);
  }

  lemma ReceivingEnds<X(!new)>(
    c: Codec<X>, a: seq<Byte>, b: seq<Byte>, start: nat, p: nat, end: nat, count: nat, extra: Option<X>,
    last: Option<X>)
    requires Receiving(c, a, b, start, p, end, count, extra) && end - p <= HEADER
    ensures ReceivedInPlace(c, start, end - start, last, a, b, count, if extra.Some? then extra else last)
  {
    hide Received, Within;
    NothingSent(c, b[p..end], None);
    assert b[start..end] == b[start..p] + b[p..end];
  }

  method PostRecvBytes<X(!new)>(
    buf: array<Byte>, start: nat, length: nat, c: Codec<X>, last0: Option<X>) returns (result: int, last: Option<X>)
    requires start + length <= buf.Length && c.InPlace()
    modifies buf
    ensures ReceivedInPlace(c, start, length, last0, old(buf[..]), buf[..], result, last)
  {
    hide Received, Within, Receiving, ReceivedInPlace;
    ghost var a, end := buf[..], start + length;
    var p, len, count := start, length, 0;
    last := last0;
    ghost var extra: Option<X> := None;
    ReceivingStarts(c, a, start, end);
    while len > HEADER
      invariant start <= p <= end && p + len == end && Receiving(c, a, buf[..], start, p, end, count, extra)
      invariant last == if extra.Some? then extra else last0
    {
      ghost var b := buf[..];
      var error, n, x := ConvertField(buf, p, len, c);
      if error != 0 {
        ReceivingFails(c, a, b, buf[..], start, p, end, count, extra, error, last0);
        return error, last0;
      }
      ghost var x' := if HEADER + n == len then x else None;
      ReceivingStep(c, a, b, buf[..], start, p, p + HEADER + n, end, count, extra, x');
      extra := if x'.Some? then x' else extra;
      len := len - HEADER - n;
      p := p + HEADER + n;
      count := count + 1;
      if len == 0 {
        last := x;
      }
    }
    ReceivingEnds(c, a, buf[..], start, p, end, count, extra, last0);
    result := count;
  }

  /** Prepares a suffix with the given number of fields for sending. */
  method PreSend<X(!new)>(suffix: Option<array<Byte>>, start: nat, count: nat, c: Codec<X>, last: Option<X>)
    requires (suffix.Some? ==> start <= suffix.value.Length && Shaped(suffix.value[start..], count)) && c.InPlace()
    modifies if suffix.Some? then {suffix.value} else {}
    ensures suffix.Some? ==>
              suffix.value[..start] == old(suffix.value[..start])
              && suffix.value[start..] == Sent(c, old(suffix.value[start..]), count, last)
  {
    if suffix.Some? {
      PreSendBytes(suffix.value, start, count, c, last);
    }
  }

  method PreSendBytes<X(!new)>(buf: array<Byte>, start: nat, count: nat, c: Codec<X>, last: Option<X>)
    requires start <= buf.Length && Shaped(buf[start..], count) && c.InPlace()
    modifies buf
    ensures Within(old(buf[..]), buf[..], start, buf.Length) && buf[start..] == Sent(c, old(buf[start..]), count, last)
  {
    hide Sent, Shaped;
    ghost var s := buf[start..];
    var p := start;
    assert buf[start..start] == [];
    for i := 0 to count
      invariant start <= p <= buf.Length && Within(old(buf[..]), buf[..], start, buf.Length)
      invariant Shaped(buf[p..], count - i)
      invariant Sent(c, s, count, last) == buf[start..p] + Sent(c, buf[p..], count - i, last)
    {
      ghost var a := buf[..];
      var n := PrepareField(buf, p, count - i, c, last);
      WithinSlices(a, buf[..], start, p, p + HEADER + n, buf.Length);
      p := p + HEADER + n;
    }
    NothingToSend(c, buf[p..], last);
    assert buf[start..] == buf[start..p] + buf[p..];
  }

  /** Converts the field at p, the first of count; n is the length of its value. */
  method PrepareField<X(!new)>(buf: array<Byte>, p: nat, count: nat, c: Codec<X>, last: Option<X>) returns (n: nat)
    requires p <= buf.Length && count > 0 && Shaped(buf[p..], count) && c.InPlace()
    modifies buf
    ensures p + HEADER + n <= buf.Length && Within(old(buf[..]), buf[..], p, p + HEADER + n)
    ensures Shaped(buf[p + HEADER + n..], count - 1)
    ensures Sent(c, old(buf[p..]), count, last) ==
            buf[p..p + HEADER + n] + Sent(c, buf[p + HEADER + n..], count - 1, last)
  {
    hide Sent, Shaped, Flipped, Host, Network, Within;
    ghost var a := buf[..];
    ghost var h, v, rest := FirstShaped(buf[p..], count);
    FieldSent(c, h, v, rest, count - 1, last);
    FieldSlices(a, p, h, v, rest);
    var length := Host(buf[p..p + HEADER], 2);
    n := length;
    var value := c.send(
      Host(buf[p..p + HEADER], 0), buf[p + HEADER..p + HEADER + n], if count == 1 then last else None);
    Store(buf, p + HEADER, value);
    ghost var b := buf[..];
    UnchangedBefore(a, b, p, p + HEADER, p + HEADER + n);
    FlipHeader(buf, p);
    FieldChanged(a, b, buf[..], p, n);
  }

  lemma FieldSlices(a: seq<Byte>, p: nat, h: seq<Byte>, v: seq<Byte>, rest: seq<Byte>)
    requires p <= |a| && a[p..] == h + v + rest && |h| == HEADER
    ensures p + HEADER + |v| <= |a|
    ensures a[p..p + HEADER] == h && a[p + HEADER..p + HEADER + |v|] == v && a[p + HEADER + |v|..] == rest
  {
    var s := a[p..];
    assert s[..HEADER] == h && s[HEADER..HEADER + |v|] == v && s[HEADER + |v|..] == rest;
  }

  lemma UnchangedBefore(a: seq<Byte>, b: seq<Byte>, p: nat, i: nat, j: nat)
    requires p <= i <= |a| && Within(a, b, i, j)
    ensures b[p..i] == a[p..i]
  {
  }

  lemma FieldChanged(a: seq<Byte>, b: seq<Byte>, d: seq<Byte>, p: nat, n: nat)
    requires p + HEADER + n <= |a| && Within(a, b, p + HEADER, p + HEADER + n) && Within(b, d, p, p + HEADER)
    ensures Within(a, d, p, p + HEADER + n) && d[p + HEADER + n..] == a[p + HEADER + n..]
    ensures d[p..p + HEADER + n] == d[p..p + HEADER] + b[p + HEADER..p + HEADER + n]
  {
    assert d[p + HEADER..p + HEADER + n] == b[p + HEADER..p + HEADER + n];
  }

  lemma NothingToSend<X(!new)>(c: Codec<X>, s: seq<Byte>, last: Option<X>)
    ensures Shaped(s, 0) && Sent(c, s, 0, last) == s
  {
  }
}
