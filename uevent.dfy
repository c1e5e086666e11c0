// The kernel uevent datagram as both ueventd (init/devices.c) and the
// charger (charger/charger.c) receive it: NUL-separated KEY=VALUE strings.
// The receivers read at most UEVENT_MSG_LEN bytes, drop a datagram that
// fills the whole buffer, and append two NUL bytes so that the parse loop
// stops at the first empty string.

module UeventWire {
  import opened CStrings

  const UEVENT_MSG_LEN: nat := 1024

  /** A receive buffer ends with the two NUL bytes the receiver appends. */
  predicate Terminated(buf: seq<char>)
  {
    |buf| >= 2 && buf[|buf| - 1] == NUL && buf[|buf| - 2] == NUL
  }

  /** What the receiver hands to the parser for a datagram it accepts. */
  function Received(d: seq<char>): (buf: seq<char>)
    ensures |buf| == |d| + 2 && Terminated(buf) && buf[..|d|] == d
  {
    d + [NUL, NUL]
  }

  /** A datagram is parsed only when it is shorter than the receive buffer. */
  predicate Accepted(d: seq<char>)
  {
    |d| < UEVENT_MSG_LEN
  }

  /** The strings of the message from index i up to the first empty one. */
  function FieldsFrom(buf: seq<char>, i: nat): (fs: seq<string>)
    requires Terminated(buf) && i < |buf|
    ensures forall k :: 0 <= k < |fs| ==> fs[k] != [] && NoNul(fs[k])
    decreases |buf| - i
  {
    if buf[i] == NUL then []
    else
      var j := StrEnd(buf, i);
      [buf[i..j]] + FieldsFrom(buf, j + 1)
  }

  /** A message that does not start with the empty string starts with its first string. */
  lemma FieldsFromFirst(buf: seq<char>, i: nat)
    requires Terminated(buf) && i < |buf| && buf[i] != NUL
    ensures var j := StrEnd(buf, i);
      FieldsFrom(buf, i) == [buf[i..j]] + FieldsFrom(buf, j + 1) &&
      FieldsFrom(buf, i) != [] && FieldsFrom(buf, i)[0] == buf[i..j] &&
      FieldsFrom(buf, i)[1..] == FieldsFrom(buf, j + 1)
  {
    var j := StrEnd(buf, i);
    assert ([buf[i..j]] + FieldsFrom(buf, j + 1))[1..] == FieldsFrom(buf, j + 1);
  }

  /** The strings of a message, each followed by its NUL. */
  function Join(fs: seq<string>): seq<char>
  {
    if fs == [] then [] else fs[0] + [NUL] + Join(fs[1..])
  }

  /** Writing non-empty NUL-free strings and parsing them back gives the same strings. */
  lemma {:induction false} FieldsOfJoin(pre: seq<char>, fs: seq<string>)
    requires forall k :: 0 <= k < |fs| ==> fs[k] != [] && NoNul(fs[k])
    ensures Terminated(pre + Join(fs) + [NUL, NUL])
    ensures FieldsFrom(pre + Join(fs) + [NUL, NUL], |pre|) == fs
    decreases |fs|
  {
    var buf := pre + Join(fs) + [NUL, NUL];
    if fs == [] {
      assert buf == pre + [NUL, NUL];
    } else {
      var f := fs[0];
      var pre' := pre + f + [NUL];
      var rest := Join(fs[1..]) + [NUL, NUL];
      assert buf == pre' + Join(fs[1..]) + [NUL, NUL];
      assert buf == pre + f + [NUL] + rest;
      FieldsOfJoin(pre', fs[1..]);
      var i := |pre|;
      assert buf[i..i + |f|] == f;
      assert buf[i + |f|] == NUL;
      StrEndAt(buf, i, |f|);
      assert buf[i] == f[0];
    }
  }

  /** The first key of ks whose text f starts with: the if-chain of a uevent parser. */
  function FirstKey<K>(f: string, ks: seq<K>, text: K -> string): (k: Option<K>)
    ensures k.Some? ==> exists i :: (0 <= i < |ks| && ks[i] == k.value && StartsWith(f, text(k.value)) &&
      (forall j :: 0 <= j < i ==> !StartsWith(f, text(ks[j]))))
    ensures k.None? ==> forall i :: 0 <= i < |ks| ==> !StartsWith(f, text(ks[i]))
  {
    if ks == [] then None
    else if StartsWith(f, text(ks[0])) then Some(ks[0])
    else
      var r := FirstKey(f, ks[1..], text);
      assert forall i :: 0 <= i < |ks| - 1 ==> ks[1..][i] == ks[i + 1];
      r
  }

  /** The strings of a message applied in order by one parse step. */
  function FoldFields<E>(step: (E, string) -> E, ev: E, fs: seq<string>): E
    decreases |fs|
  {
    if fs == [] then ev else FoldFields(step, step(ev, fs[0]), fs[1..])
  }

  lemma FoldFirst<E>(step: (E, string) -> E, ev: E, fs: seq<string>)
    requires fs != []
    ensures FoldFields(step, ev, fs) == FoldFields(step, step(ev, fs[0]), fs[1..])
  {
  }

  lemma {:induction false} FoldSnoc<E>(step: (E, string) -> E, ev: E, fs: seq<string>, f: string)
    ensures FoldFields(step, ev, fs + [f]) == step(FoldFields(step, ev, fs), f)
    decreases |fs|
  {
    if fs != [] {
      assert (fs + [f])[1..] == fs[1..] + [f];
      FoldSnoc(step, step(ev, fs[0]), fs[1..], f);
    }
  }
}
