/** What a person at the console sees and what a program then reads: the screen always shows the line as it has
    been edited so far, and Enter makes exactly that line readable. */
module ConsoleTyping {
  import opened Blocks
  import opened ProxyFrames
  import opened ConsoleInput

  // ---- the screen -----------------------------------------------------------------------------

  /** The current row of a terminal and its cursor. */
  datatype Screen = Screen(row: Bytes, cur: nat)

  function Put(s: Screen, b: Byte): (r: Screen) {
    if b == NL then Screen([], 0)
    else if b == CTRL_H then s.(cur := if s.cur > 0 then s.cur - 1 else 0)
    else if s.cur < |s.row| then Screen(s.row[s.cur := b], s.cur + 1)
    else Screen(s.row + [b], |s.row| + 1)
  }

  function Puts(s: Screen, bs: Bytes): (r: Screen) {
    if bs == [] then s else Put(Puts(s, bs[..|bs| - 1]), bs[|bs| - 1])
  }

  /** The row reads `line`, with the cursor behind it and nothing but blanks after that. */
  ghost predicate Shows(s: Screen, line: Bytes) {
    && s.cur == |line| <= |s.row| && s.row[..|line|] == line
    && forall i :: |line| <= i < |s.row| ==> s.row[i] == 32
  }

  lemma PutsMore(s: Screen, bs: Bytes, b: Byte)
    ensures Puts(s, bs + [b]) == Put(Puts(s, bs), b)
  {
    assert (bs + [b])[..|bs|] == bs;
  }

  lemma PutOne(s: Screen, line: Bytes, b: Byte)
    requires Shows(s, line) && b != NL && b != CTRL_H
    ensures Shows(Put(s, b), line + [b])
  {
  }

  /** Back, blank and back take the last character away. */
  lemma RubOne(s: Screen, line: Bytes)
    requires Shows(s, line) && |line| > 0
    ensures Shows(Put(Put(Put(s, CTRL_H), 32), CTRL_H), line[..|line| - 1])
  {
  }

  lemma {:induction false} RubSome(s: Screen, line: Bytes, n: nat)
    requires Shows(s, line) && n <= |line|
    ensures Shows(Puts(s, Rubout(n)), line[..|line| - n])
  {
    hide Shows, Put, Puts;
    if n == 0 {
      assert line[..|line|] == line;
      PutsNothing(s);
    } else {
      RubSome(s, line, n - 1);
      var was, left := Rubout(n - 1), line[..|line| - (n - 1)];
      PutsMore(s, was, CTRL_H);
      PutsMore(s, was + [CTRL_H], 32);
      PutsMore(s, was + [CTRL_H] + [32], CTRL_H);
      assert Rubout(n) == was + [CTRL_H] + [32] + [CTRL_H];
      RubOne(Puts(s, was), left);
      assert left[..|left| - 1] == line[..|line| - n];
    }
  }

  lemma PutsNothing(s: Screen)
    ensures Puts(s, []) == s
  {
  }

  /** What may still be edited. */
  function Editable(pending: Bytes, ready: nat): (t: Bytes)
    requires ready <= |pending|
  {
    pending[ready..]
  }

  lemma {:induction false} KilledAll(pending: Bytes, ready: nat)
    requires ready <= |pending| && NL !in pending[ready..]
    ensures Killed(pending, ready) == pending[..ready]
    decreases |pending|
  {
    if |pending| > ready {
      var n := |pending| - 1;
      assert pending[n] == pending[ready..][n - ready];
      assert forall c :: c in pending[..n][ready..] ==> c in pending[ready..];
      KilledAll(pending[..n], ready);
      assert pending[..n][..ready] == pending[..ready];
    }
  }

  /** Whatever key comes, the screen shows what is on the row from before, and after it the line as it is edited
      now; Enter begins a new row. */
  lemma EchoShows(pending: Bytes, ready: nat, c: Byte, s: Screen, before: Bytes)
    requires ready <= |pending| && NL !in Editable(pending, ready)
    requires Shows(s, before + Editable(pending, ready))
    ensures var r := Received(pending, ready, c); var t := Puts(s, r.echo);
            && NL !in Editable(r.pending, r.ready)
            && if r.echo == [NL] then t == Screen([], 0) && r.ready == |r.pending|
               else Shows(t, before + r.pending[ready..])
  {
    hide Shows, Put;
    var r, line := Received(pending, ready, c), before + pending[ready..];
    PutsNothing(s);
    if c == CTRL_U {
      KilledAll(pending, ready);
      RubSome(s, line, |pending| - ready);
      assert line[..|line| - (|pending| - ready)] == before + pending[..ready][ready..];
    } else if c == CTRL_H || c == DEL {
      if |pending| > ready {
        RubSome(s, line, 1);
        assert line[..|line| - 1] == before + pending[..|pending| - 1][ready..];
      }
    } else if c != CTRL_P && c != 0 && |pending| < SIZE {
      var d := if c == CR then NL else c;
      PutsMore(s, [], d);
      assert [] + [d] == [d];
      if d == NL {
        NewRow(s);
      } else {
        PutOne(s, line, d);
        assert before + (pending + [d])[ready..] == line + [d];
      }
    }
  }

  lemma NewRow(s: Screen)
    ensures Put(s, NL) == Screen([], 0)
  {
  }

  // ---- a whole line ---------------------------------------------------------------------------

  /** Keys that edit a line: characters, the erase keys, ^U. */
  predicate Typing(c: Byte) {
    c != 0 && c != CTRL_P && c != CTRL_D && c != NL && c != CR
  }

  /** The line that keys leave: an erase key takes the last character back, ^U takes all. */
  function Edited(keys: Bytes): (line: Bytes)
    ensures |line| <= |keys|
  {
    if keys == [] then []
    else
      var line, c := Edited(keys[..|keys| - 1]), keys[|keys| - 1];
      if c == CTRL_U then []
      else if c == CTRL_H || c == DEL then (if line == [] then [] else line[..|line| - 1])
      else line + [c]
  }

  /** The input after each of the keys. */
  function Typed(pending: Bytes, ready: nat, keys: Bytes): (r: Input)
    requires ready <= |pending|
    ensures r.ready <= |r.pending|
  {
    if keys == [] then Input(pending, ready, [])
    else
      var was := Typed(pending, ready, keys[..|keys| - 1]);
      var r := Received(was.pending, was.ready, keys[|keys| - 1]);
      r.(echo := was.echo + r.echo)
  }

  lemma {:induction false} EditedPlain(keys: Bytes)
    requires forall i :: 0 <= i < |keys| ==> Typing(keys[i])
    ensures NL !in Edited(keys)
  {
    if keys != [] { EditedPlain(keys[..|keys| - 1]); }
  }

  /** Keys typed where there is room leave the edited line. */
  lemma {:induction false} TypedIs(pending: Bytes, keys: Bytes)
    requires |pending| + |keys| < SIZE && forall i :: 0 <= i < |keys| ==> Typing(keys[i])
    ensures var r := Typed(pending, |pending|, keys); r.ready == |pending| && r.pending == pending + Edited(keys)
  {
    if keys != [] {
      var front, c := keys[..|keys| - 1], keys[|keys| - 1];
      TypedIs(pending, front);
      EditedPlain(front);
      var line := Edited(front);
      var now := pending + line;
      assert Typing(c) && now[|pending|..] == line;
      if c == CTRL_U {
        KilledAll(now, |pending|);
        assert now[..|pending|] == pending + [];
      } else if c == CTRL_H || c == DEL {
        if line != [] { assert now[..|now| - 1] == pending + line[..|line| - 1]; }
      } else {
        assert now + [c] == pending + (line + [c]);
      }
    }
  }

  /** A line typed with corrections and ended with Enter may be read as it was corrected. */
  lemma LineIsRead(pending: Bytes, keys: Bytes, enter: Byte)
    requires |pending| + |keys| < SIZE && forall i :: 0 <= i < |keys| ==> Typing(keys[i])
    requires enter == CR || enter == NL
    ensures var r := Typed(pending, |pending|, keys + [enter]);
            r.pending == pending + Edited(keys) + [NL] && r.ready == |r.pending|
  {
    var all := keys + [enter];
    assert all[..|all| - 1] == keys;
    TypedIs(pending, keys);
  }

  lemma EchoMore(s: Screen, a: Bytes, b: Bytes)
    ensures Puts(s, a + b) == Puts(Puts(s, a), b)
    decreases |b|
  {
    if b == [] {
      assert a + b == a;
    } else {
      var front := b[..|b| - 1];
      assert (a + b)[..|a + b| - 1] == a + front;
      EchoMore(s, a, front);
    }
  }

  /** And until then the screen shows it. */
  lemma {:induction false} LineIsShown(pending: Bytes, keys: Bytes, s: Screen)
    requires |pending| + |keys| < SIZE && forall i :: 0 <= i < |keys| ==> Typing(keys[i])
    requires Shows(s, [])
    ensures Shows(Puts(s, Typed(pending, |pending|, keys).echo), Edited(keys))
  {
    hide Shows, Put, Puts, Received, Edited;
    if keys == [] {
      PutsNothing(s);
      NothingEdited();
    } else {
      var front, c := keys[..|keys| - 1], keys[|keys| - 1];
      LineIsShown(pending, front, s);
      TypedIs(pending, front);
      TypedIs(pending, keys);
      EditedPlain(front);
      EditedPlain(keys);
      var was, line := Typed(pending, |pending|, front), Edited(front);
      var r := Received(was.pending, was.ready, c);
      var t := Puts(s, was.echo);
      assert was.pending[|pending|..] == line && [] + line == line;
      EchoShows(was.pending, was.ready, c, t, []);
      EchoMore(s, was.echo, r.echo);
      NoNewRow(was.pending, was.ready, c);
      assert r.pending[|pending|..] == Edited(keys) && [] + Edited(keys) == Edited(keys);
    }
  }

  lemma NothingEdited()
    ensures Edited([]) == []
  {
  }

  lemma NoNewRow(pending: Bytes, ready: nat, c: Byte)
    requires Typing(c) && ready <= |pending|
    ensures Received(pending, ready, c).echo != [NL]
  {
    if c == CTRL_U {
      var n := |pending| - |Killed(pending, ready)|;
      RuboutSize(n);
    } else {
      RuboutSize(1);
    }
  }

  lemma {:induction false} RuboutSize(n: nat)
    ensures |Rubout(n)| == 3 * n
  {
    if n > 0 { RuboutSize(n - 1); }
  }
}
