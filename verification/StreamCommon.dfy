/**
 What the RX and TX sides of the stream device share: results, handles, stream indices, and the
 parts of a stream description that are validated alike.
 */
module StreamCommon {
  import opened Options

  const MAX_CHANNELS: nat := 256
  const CODEC_MAX: nat := 4

  datatype Errno = EINVAL | EBUSY | ENOSPC | ENOENT | EACCES

  datatype Result = Ok(value: nat) | Err(error: Errno)

  /** A handle is an open file of the device. */
  type Handle = nat

  /** A stream description carries one track per possible channel, negative for "nowhere". */
  type Tracks = t: seq<int> | |t| == MAX_CHANNELS witness seq(MAX_CHANNELS, _ => -1)

  /** A live stream: the handle that created it, its description, and the base of its range. */
  datatype Entry<S> = Elem(owner: Handle, stream: S, base: nat)

  datatype StreamCommand<S> =
    | Add(stream: S)
    | Update(index: nat, stream: S)
    | Delete(index: nat)
    | Close

  datatype StreamRequest<S> = Request(filp: Handle, cmd: StreamCommand<S>)

  function Closes<S>(handles: seq<Handle>): seq<StreamRequest<S>> {
    seq(|handles|, i requires 0 <= i < |handles| => Request(handles[i], Close))
  }

  /** Owner and description of each live stream, without the place of its range. */
  function Described<S>(streams: map<nat, Entry<S>>): map<nat, (Handle, S)> {
    map k | k in streams :: (streams[k].owner, streams[k].stream)
  }

  lemma RebaseKeepsDescriptions<S>(streams: map<nat, Entry<S>>, k: nat, b: nat)
    requires k in streams
    ensures Described(streams[k := streams[k].(base := b)]) == Described(streams)
  {
  }

  lemma SameKeys<S>(streams: map<nat, Entry<S>>, streams': map<nat, Entry<S>>)
    requires Described(streams') == Described(streams)
    ensures streams'.Keys == streams.Keys
    ensures forall k | k in streams :: streams'[k].stream == streams[k].stream
  {
    assert streams'.Keys == Described(streams').Keys && streams.Keys == Described(streams).Keys;
    forall k | k in streams ensures streams'[k].stream == streams[k].stream {
      assert Described(streams')[k] == Described(streams)[k];
    }
  }

  /** The streams of all other handles. */
  function OfOthers<S>(streams: map<nat, Entry<S>>, filp: Handle): map<nat, Entry<S>> {
    map k | k in streams && streams[k].owner != filp :: streams[k]
  }

  /** The streams left when the handle's streams with an index from `k` to `max` are gone. */
  function Unclosed<S>(streams: map<nat, Entry<S>>, filp: Handle, k: nat, max: nat): map<nat, Entry<S>> {
    map i | i in streams && !(k <= i < max && streams[i].owner == filp) :: streams[i]
  }

  lemma UnclosedNext<S>(streams: map<nat, Entry<S>>, filp: Handle, k: nat, max: nat)
    requires k < max
    ensures var visited := if k in streams && streams[k].owner == filp then streams - {k} else streams;
            Unclosed(visited, filp, k + 1, max) == Unclosed(streams, filp, k, max)
  {
  }

  lemma UnclosedEnd<S>(streams: map<nat, Entry<S>>, filp: Handle, k: nat, max: nat)
    requires k >= max
    ensures Unclosed(streams, filp, k, max) == streams
  {
  }

  /** From `before` to `after`, stream `k` changed only if it was, and is, one of the handle's. */
  ghost predicate OwnChange<S>(before: map<nat, Entry<S>>, after: map<nat, Entry<S>>, filp: Handle, k: nat) {
    && (k in before && before[k].owner != filp ==> k in after && after[k] == before[k])
    && (k in after && (k !in before || after[k] != before[k]) ==> after[k].owner == filp)
  }

  /** A live stream that a command of `filp` does not name: not the one updated or deleted, and not
      one of the handle being closed. */
  predicate Bystander<S>(streams: map<nat, Entry<S>>, filp: Handle, cmd: StreamCommand<S>, l: nat) {
    l in streams &&
    match cmd
    case Add(_) => true
    case Update(k, _) => l != k
    case Delete(k) => l != k
    case Close => streams[l].owner != filp
  }

  predicate InBounds(tracks: seq<int>, maxTracks: nat) {
    forall i | 0 <= i < |tracks| :: tracks[i] < maxTracks
  }

  predicate ValidPayloadType(payloadType: nat, numChannels: nat, codec: nat) {
    if payloadType == 10 then numChannels == 2 && codec == 3
    else if payloadType == 11 then numChannels == 1 && codec == 3
    else 95 <= payloadType <= 127
  }

  const AM824: nat := 0
  const L32: nat := 1
  const L24: nat := 2
  const L16: nat := 3

  /** The static types of 16-bit audio are 10 for stereo and 11 for mono (section 6 of RFC 3551); beside
      them only types from 95 on are allowed. */
  predicate AllowedPayloadType(payloadType: nat, numChannels: nat, codec: nat) {
    95 <= payloadType < 128 || (codec == L16 && 1 <= numChannels <= 2 && payloadType + numChannels == 12)
  }

  lemma PayloadTypes(payloadType: nat, numChannels: nat, codec: nat)
    ensures ValidPayloadType(payloadType, numChannels, codec) <==>
            AllowedPayloadType(payloadType, numChannels, codec)
  {
  }

  function CodecCode(codec: nat): nat {
    match codec
    case 0 => 0xa8
    case 1 => 0x20
    case 2 => 0x18
    case _ => 0x10
  }

  /** Different codecs have different codes. */
  lemma CodecsDiffer(c: nat, d: nat)
    requires c < CODEC_MAX && d < CODEC_MAX
    ensures CodecCode(c) == CodecCode(d) <==> c == d
  {
  }

  /** The lowest stream index from `from` on that is not in use. */
  function LeastFree<T>(streams: map<nat, T>, from: nat, max: nat): (r: Option<nat>)
    requires from <= max
    ensures r.Some? ==> from <= r.value < max && r.value !in streams
    ensures forall k | from <= k < max && (r.Some? ==> k < r.value) :: k in streams
    decreases max - from
  {
    if from == max then None
    else if from !in streams then Some(from)
    else LeastFree(streams, from + 1, max)
  }

  /** The least index without a stream. */
  ghost predicate LeastIndex<T>(streams: map<nat, T>, max: nat, k: nat) {
    k < max && k !in streams && forall i: nat | i < k :: i in streams
  }

  /** Allocating an index takes the lowest one that is free. */
  method AllocIndex<T>(streams: map<nat, T>, max: nat) returns (r: Option<nat>)
    ensures r == LeastFree(streams, 0, max)
  {
    var k := 0;
    while k < max && k in streams
      invariant 0 <= k <= max
      invariant LeastFree(streams, 0, max) == LeastFree(streams, k, max)
    {
      k := k + 1;
    }
    r := if k < max then Some(k) else None;
  }

  /** Overwriting or removing an entry just inserted. */
  lemma InsertThen<T>(streams: map<nat, T>, k: nat, e: T, e': T)
    requires k !in streams
    ensures streams[k := e][k := e'] == streams[k := e']
    ensures streams[k := e] - {k} == streams
  {
  }
}
