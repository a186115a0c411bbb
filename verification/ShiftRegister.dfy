/** Linear feedback shift registers in general: what the two checksums of the frame format share. */
module ShiftRegister {

  /** `step` shifts once, `xor` adds, `input` places one message bit where the register consumes it,
      `push` prepends a message bit to a word of message bits, `zero` is the empty word, and a
      word has `room` when its last place is still free. */
  datatype Register<!R(!new)> = Register(
    width: nat,
    zero: R,
    step: R -> R,
    xor: (R, R) -> R,
    input: bool -> R,
    push: (R, bool) -> R,
    room: R -> bool)

  /** Bit-serial division: every message bit is added to the register, which is then shifted once. */
  function Feed<R(!new)>(m: Register<R>, c: R, bits: seq<bool>): R
    decreases bits
  {
    if bits == [] then c
    else Feed(m, m.step(m.xor(c, m.input(bits[0]))), bits[1..])
  }

  function Steps<R(!new)>(m: Register<R>, c: R, n: nat): R {
    if n == 0 then c else m.step(Steps(m, c, n - 1))
  }

  /** The message bits as one word, the first bit being the one the register consumes first. */
  function Word<R(!new)>(m: Register<R>, bits: seq<bool>): R {
    if bits == [] then m.zero else m.push(Word(m, bits[1..]), bits[0])
  }

  ghost predicate StepInjective<R(!new)>(m: Register<R>) {
    forall c, d :: m.step(c) == m.step(d) ==> c == d
  }

  ghost predicate XorCancelsAt<R(!new)>(m: Register<R>, c: R, v: R, w: R) {
    && (m.xor(c, v) == m.xor(c, w) ==> v == w)
    && (m.xor(v, c) == m.xor(w, c) ==> v == w)
    && m.xor(c, m.zero) == c
  }

  ghost predicate XorCancels<R(!new)>(m: Register<R>) {
    forall c, v, w :: XorCancelsAt(m, c, v, w)
  }

  /** A word with room is shifted out without touching the feedback. */
  ghost predicate ShiftsOutAt<R(!new)>(m: Register<R>, c: R, w: R, b: bool) {
    m.room(w) ==> m.step(m.xor(c, m.push(w, b))) == m.xor(m.step(m.xor(c, m.input(b))), w)
  }

  ghost predicate PushInjectiveAt<R(!new)>(m: Register<R>, v: R, w: R, a: bool, b: bool) {
    m.room(v) && m.room(w) && m.push(v, a) == m.push(w, b) ==> v == w && a == b
  }

  ghost predicate PushShiftsOut<R(!new)>(m: Register<R>) {
    && (forall c, w, b :: ShiftsOutAt(m, c, w, b))
    && (forall v, w, a, b :: PushInjectiveAt(m, v, w, a, b))
  }

  ghost predicate ShortWordsHaveRoom<R(!new)>(m: Register<R>) {
    forall bits: seq<bool> :: |bits| < m.width ==> m.room(Word(m, bits))
  }

  ghost predicate Lawful<R(!new)>(m: Register<R>) {
    StepInjective(m) && XorCancels(m) && PushShiftsOut(m) && ShortWordsHaveRoom(m)
  }

  lemma {:induction false} FeedAppend<R(!new)>(m: Register<R>, c: R, a: seq<bool>, b: seq<bool>)
    ensures Feed(m, c, a + b) == Feed(m, Feed(m, c, a), b)
    decreases a
  {
    if a == [] {
      assert a + b == b;
    } else {
      assert (a + b)[1..] == a[1..] + b;
      FeedAppend(m, m.step(m.xor(c, m.input(a[0]))), a[1..], b);
    }
  }

  /** Once two registers differ, no common message makes them equal again. */
  lemma {:induction false} FeedInjective<R(!new)>(m: Register<R>, c: R, d: R, bits: seq<bool>)
    requires Lawful(m)
    ensures Feed(m, c, bits) == Feed(m, d, bits) ==> c == d
    decreases bits
  {
    if bits != [] {
      var b := m.input(bits[0]);
      FeedInjective(m, m.step(m.xor(c, b)), m.step(m.xor(d, b)), bits[1..]);
      assert XorCancelsAt(m, b, c, d);
    }
  }

  lemma {:induction false} StepsInjective<R(!new)>(m: Register<R>, c: R, d: R, n: nat)
    requires Lawful(m)
    ensures Steps(m, c, n) == Steps(m, d, n) ==> c == d
  {
    if n > 0 {
      StepsInjective(m, c, d, n - 1);
    }
  }

  lemma {:induction false} StepsFront<R(!new)>(m: Register<R>, c: R, n: nat)
    ensures Steps(m, m.step(c), n) == Steps(m, c, n + 1)
  {
    if n > 0 {
      StepsFront(m, c, n - 1);
    }
  }

  /** A message no wider than the register acts like one addition followed by plain shifts. */
  lemma {:induction false} FeedIsWord<R(!new)>(m: Register<R>, c: R, bits: seq<bool>)
    requires Lawful(m) && |bits| <= m.width
    ensures Feed(m, c, bits) == Steps(m, m.xor(c, Word(m, bits)), |bits|)
    decreases bits
  {
    if bits == [] {
      assert XorCancelsAt(m, c, c, c);
    } else {
      var b := m.input(bits[0]);
      assert m.room(Word(m, bits[1..]));
      FeedIsWord(m, m.step(m.xor(c, b)), bits[1..]);
      var w := Word(m, bits[1..]);
      assert Word(m, bits) == m.push(w, bits[0]);
      assert ShiftsOutAt(m, c, w, bits[0]);
      StepsFront(m, m.xor(c, Word(m, bits)), |bits| - 1);
    }
  }

  lemma {:induction false} WordInjective<R(!new)>(m: Register<R>, a: seq<bool>, b: seq<bool>)
    requires Lawful(m) && |a| == |b| <= m.width && Word(m, a) == Word(m, b)
    ensures a == b
  {
    if a != [] {
      assert m.room(Word(m, a[1..]));
      assert m.room(Word(m, b[1..]));
      assert PushInjectiveAt(m, Word(m, a[1..]), Word(m, b[1..]), a[0], b[0]);
      WordInjective(m, a[1..], b[1..]);
      assert a == [a[0]] + a[1..] && b == [b[0]] + b[1..];
    }
  }

  /** Every burst no wider than the register changes its final contents, whatever surrounds the burst. */
  lemma BurstDetected<R(!new)>(m: Register<R>, c: R, before: seq<bool>, v: seq<bool>, w: seq<bool>, after: seq<bool>)
    requires Lawful(m) && |v| == |w| <= m.width && v != w
    ensures Feed(m, c, before + v + after) != Feed(m, c, before + w + after)
  {
    var entry := Feed(m, c, before);
    FeedAppend(m, c, before, v);
    FeedAppend(m, c, before, w);
    FeedAppend(m, c, before + v, after);
    FeedAppend(m, c, before + w, after);
    FeedInjective(m, Feed(m, entry, v), Feed(m, entry, w), after);
    FeedIsWord(m, entry, v);
    FeedIsWord(m, entry, w);
    StepsInjective(m, m.xor(entry, Word(m, v)), m.xor(entry, Word(m, w)), |v|);
    assert XorCancelsAt(m, entry, Word(m, v), Word(m, w));
    if Word(m, v) == Word(m, w) {
      WordInjective(m, v, w);
    }
  }
}
