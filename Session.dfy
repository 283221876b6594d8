/** What both entry points share: the edit log that stands for the keyboard
    and the clipboard, the replay of that log against the text on screen,
    the transcript payloads delivered by the transcription connection, and
    the text a session leaves typed and copies on stop. */
module Session {
  import opened Text

  /** One effect on the outside world: `kb.type(text)`, one backspace
      press/release pair, or a `pbcopy` of `text`. */
  datatype Action = Type(text: string) | Backspace | Copy(text: string)

  /** A transcript callback. `Malformed` stands for a callback without a
      result, a channel or an alternative; otherwise the first
      alternative's transcript and the `is_final` flag. */
  datatype Payload = Malformed | Transcript(text: string, isFinal: bool)

  /** The session's own text on screen after one action. */
  function ApplyOne(screen: string, a: Action): string {
    match a
    case Type(t) => screen + t
    case Backspace => if screen == [] then [] else screen[..|screen| - 1]
    case Copy(_) => screen
  }

  /** The session's own text on screen after every action of `acts`, in order. */
  function Apply(screen: string, acts: seq<Action>): string
    decreases |acts|
  {
    if acts == [] then screen else Apply(ApplyOne(screen, acts[0]), acts[1..])
  }

  /** No backspace of `acts` is issued while none of the session's text is
      left: the edits never delete text the session did not type. */
  predicate Contained(screen: string, acts: seq<Action>)
    decreases |acts|
  {
    acts == [] ||
    ((acts[0].Backspace? ==> screen != []) && Contained(ApplyOne(screen, acts[0]), acts[1..]))
  }

  /** `n` backspace presses in a row. */
  function Backspaces(n: nat): (r: seq<Action>)
    ensures |r| == n
  {
    if n == 0 then [] else Backspaces(n - 1) + [Backspace]
  }

  /** The `for _ in range(n)` loop that presses and releases backspace `n`
      times. */
  method PressBackspace(n: nat) returns (presses: seq<Action>)
    ensures presses == Backspaces(n)
  {
    presses := [];
    var i := 0;
    while i < n
      invariant 0 <= i <= n
      invariant presses == Backspaces(i)
    {
      presses := presses + [Backspace];
      i := i + 1;
    }
  }

  /** The text typed for confirmed segments: each one followed by a space. */
  function Committed(segments: seq<string>): string {
    if segments == [] then ""
    else Committed(segments[..|segments| - 1]) + segments[|segments| - 1] + " "
  }

  /** The `kb.type` calls that type confirmed segments, each with its space. */
  function TypeAll(segments: seq<string>): seq<Action> {
    if segments == [] then []
    else TypeAll(segments[..|segments| - 1]) + [Type(segments[|segments| - 1] + " ")]
  }

  /** What stop puts on the clipboard: `' '.join(final_text).strip()`. */
  function ClipboardText(segments: seq<string>): string {
    Strip(Join(segments))
  }

  /** What stop adds to the log: a copy of the clipboard text, unless that
      is blank. */
  function StopCopy(segments: seq<string>): seq<Action> {
    var final := ClipboardText(segments);
    if final != [] then [Copy(final)] else []
  }

  /** Committed text after confirming one more segment. */
  lemma CommittedSnoc(segments: seq<string>, s: string)
    ensures Committed(segments + [s]) == Committed(segments) + (s + " ")
  {
    assert (segments + [s])[..|segments|] == segments;
  }

  /** The typing of one more confirmed segment. */
  lemma TypeAllSnoc(segments: seq<string>, s: string)
    ensures TypeAll(segments + [s]) == TypeAll(segments) + [Type(s + " ")]
  {
    assert (segments + [s])[..|segments|] == segments;
  }

  /** Confirming segments in two batches types the two batches' text in turn. */
  lemma {:induction false} CommittedConcat(a: seq<string>, b: seq<string>)
    ensures Committed(a + b) == Committed(a) + Committed(b)
    decreases |b|
  {
    if b == [] {
      assert a + b == a;
    } else {
      var init := b[..|b| - 1];
      CommittedConcat(a, init);
      assert (a + b)[..|a + b| - 1] == a + init;
      assert (a + b)[|a + b| - 1] == b[|b| - 1];
    }
  }

  /** Replaying a log in two pieces is replaying it whole. */
  lemma {:induction false} ApplyConcat(screen: string, a: seq<Action>, b: seq<Action>)
    ensures Apply(screen, a + b) == Apply(Apply(screen, a), b)
    ensures Contained(screen, a + b) <==> Contained(screen, a) && Contained(Apply(screen, a), b)
    decreases |a|
  {
    if a == [] {
      assert a + b == b;
    } else {
      assert (a + b)[0] == a[0];
      assert (a + b)[1..] == a[1..] + b;
      ApplyConcat(ApplyOne(screen, a[0]), a[1..], b);
    }
  }

  /** Clipboard writes leave the screen alone. */
  lemma ApplyCopy(screen: string, acts: seq<Action>, t: string)
    ensures Apply(screen, acts + [Copy(t)]) == Apply(screen, acts)
    ensures Contained(screen, acts + [Copy(t)]) == Contained(screen, acts)
  {
    ApplyConcat(screen, acts, [Copy(t)]);
    assert [Copy(t)][1..] == [];
  }

  /** The part of a grown log from `start` on is the old part plus what was added. */
  lemma SuffixAppend(log: seq<Action>, added: seq<Action>, start: nat)
    requires start <= |log|
    ensures (log + added)[start..] == log[start..] + added
  {
  }

  /** `n` backspaces remove exactly the last `n` characters, and stay
      within the session's text when there are at least `n` of them. */
  lemma {:induction false} ApplyBackspaces(screen: string, n: nat)
    requires n <= |screen|
    ensures Apply(screen, Backspaces(n)) == screen[..|screen| - n]
    ensures Contained(screen, Backspaces(n))
  {
    if n > 0 {
      ApplyBackspaces(screen, n - 1);
      var mid := screen[..|screen| - (n - 1)];
      ApplyConcat(screen, Backspaces(n - 1), [Backspace]);
      assert Apply(mid, [Backspace]) == Apply(ApplyOne(mid, Backspace), []);
      assert mid[..|mid| - 1] == screen[..|screen| - n];
    }
  }

  /** Typing one string appends it and deletes nothing. */
  lemma ApplyType(screen: string, t: string)
    ensures Apply(screen, [Type(t)]) == screen + t
    ensures Contained(screen, [Type(t)])
  {
    assert [Type(t)][1..] == [];
  }

  /** Typing at the end of a session's log appends to its screen, and
      deletes nothing. */
  lemma SessionType(session: seq<Action>, t: string)
    ensures Apply("", session + [Type(t)]) == Apply("", session) + t
    ensures Contained("", session + [Type(t)]) == Contained("", session)
  {
    ApplyConcat("", session, [Type(t)]);
    ApplyType(Apply("", session), t);
  }

  /** Typing confirmed segments one after another appends their committed
      text and deletes nothing. */
  lemma {:induction false} ApplyTypeAll(screen: string, segments: seq<string>)
    ensures Apply(screen, TypeAll(segments)) == screen + Committed(segments)
    ensures Contained(screen, TypeAll(segments))
    decreases |segments|
  {
    if segments != [] {
      var init := segments[..|segments| - 1];
      var last := segments[|segments| - 1];
      ApplyTypeAll(screen, init);
      ApplyConcat(screen, TypeAll(init), [Type(last + " ")]);
      ApplyType(screen + Committed(init), last + " ");
    }
  }

  /** Typing confirmed segments at the end of a session's log appends
      their committed text to its screen, and deletes nothing. */
  lemma SessionTypeAll(session: seq<Action>, segments: seq<string>)
    ensures Apply("", session + TypeAll(segments)) == Apply("", session) + Committed(segments)
    ensures Contained("", session + TypeAll(segments)) == Contained("", session)
  {
    ApplyConcat("", session, TypeAll(segments));
    ApplyTypeAll(Apply("", session), segments);
  }

  /** Copying the session's text and then pressing backspace once per
      character leaves nothing of it on screen, and every backspace lands
      on the session's own text. */
  lemma EraseAll(screen: string)
    ensures Apply(screen, [Copy(screen)] + Backspaces(|screen|)) == []
    ensures Contained(screen, [Copy(screen)] + Backspaces(|screen|))
  {
    ApplyConcat(screen, [Copy(screen)], Backspaces(|screen|));
    assert Apply(screen, [Copy(screen)]) == Apply(screen, []);
    ApplyBackspaces(screen, |screen|);
  }

  /** Without the copy (the menu-bar variant), the backspaces alone erase it. */
  lemma EraseAllNoCopy(screen: string)
    ensures Apply(screen, Backspaces(|screen|)) == []
    ensures Contained(screen, Backspaces(|screen|))
  {
    ApplyBackspaces(screen, |screen|);
  }

  /** The joined segments followed by one space are the committed text. */
  lemma {:induction false} JoinCommitted(segments: seq<string>)
    requires segments != []
    ensures Join(segments) + " " == Committed(segments)
    decreases |segments|
  {
    if |segments| > 1 {
      var rest := segments[1..];
      JoinCommitted(rest);
      CommittedCons(segments[0], rest);
      assert segments == [segments[0]] + rest;
      calc {
        Join(segments) + " ";
        segments[0] + " " + (Join(rest) + " ");
        segments[0] + " " + Committed(rest);
      }
    } else {
      assert segments[..0] == [];
    }
  }

  /** Committed text of a segment put in front. */
  lemma {:induction false} CommittedCons(head: string, rest: seq<string>)
    ensures Committed([head] + rest) == head + " " + Committed(rest)
    decreases |rest|
  {
    if rest == [] {
      assert ([head] + rest)[..0] == [];
    } else {
      var init := rest[..|rest| - 1];
      CommittedCons(head, init);
      assert ([head] + rest)[..|rest|] == [head] + init;
    }
  }

  /** What stop copies is the session's committed text with the outer
      whitespace removed: the clipboard agrees with what was typed. */
  lemma ClipboardIsCommittedText(segments: seq<string>)
    ensures ClipboardText(segments) == Strip(Committed(segments))
  {
    if segments != [] {
      JoinCommitted(segments);
      StripTrailingSpace(Join(segments), ' ');
    }
  }

  /** Final segments "hello" and "world" leave "hello world " typed and copy
      "hello world". */
  lemma HelloWorld()
    ensures Committed(["hello", "world"]) == "hello world "
    ensures ClipboardText(["hello", "world"]) == "hello world"
  {
    assert Join(["hello", "world"]) == "hello world";
    StripStripped("hello world");
  }
}
