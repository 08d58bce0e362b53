/** `task/keyboard.rs` as written: the scancode bridge, whose producer side is
    `add_scancode` and whose consumer side is `ScancodeStream`, and the 256-byte
    line editor `print_keypress` runs over decoded keys. In this kernel nothing
    calls `add_scancode`, and `lib.rs` does not compile the `task` module in; the
    interrupt handler runs its own copy of the editor instead. */
module Keyboard {
  import opened Text
  import Commands

  /** Capacity of the `ArrayQueue` created by `ScancodeStream::new`. */
  const QueueCapacity: nat := 100

  /** A task's waker, identified by the task it wakes. */
  datatype Waker = Waker(task: nat)

  /** What `poll_next` gives back. The stream never ends, so `Ready(None)` is never
      produced; `Uninitialized` is the `expect` panic when no stream was created. */
  datatype Poll = Ready(item: Option<byte>) | Pending | Uninitialized

  function OptionToSeq<T>(o: Option<T>): seq<T> {
    if o.Some? then [o.value] else []
  }

  /** The scancode bridge: the `SCANCODE_QUEUE` cell and the `WAKER` slot. */
  class ScancodeBridge {
    /** Whether `ScancodeStream::new` has initialised the queue cell. */
    var initialized: bool
    /** The queue's contents, front first. */
    var queue: seq<byte>
    /** The waker registered in `WAKER`, if any. */
    var waker: Option<Waker>
    /** Every waker `WAKER.wake()` has woken, in order. */
    var woken: seq<Waker>
    /** Every byte the queue accepted, and every byte handed to the consumer. */
    ghost var accepted: seq<byte>
    ghost var delivered: seq<byte>

    /** The queue never holds more than its capacity, holds nothing before it is
        created, and holds exactly the accepted bytes not yet delivered, in order. */
    ghost predicate Valid()
      reads this
    {
      && |queue| <= QueueCapacity
      && (!initialized ==> queue == [])
      && accepted == delivered + queue
    }

    constructor()
      ensures Valid()
      ensures !initialized && queue == [] && waker == None && woken == []
      ensures accepted == [] && delivered == []
    {
      initialized := false;
      queue := [];
      waker := None;
      woken := [];
      accepted := [];
      delivered := [];
    }

    /** `ScancodeStream::new`: creates the queue on the first call; any later call
        fails with the `expect` message. */
    method NewStream() returns (r: Result<(), string>)
      requires Valid()
      modifies this
      ensures Valid()
      ensures r.Ok? <==> !old(initialized)
      ensures r.Err? ==> r.error == "ScancodeStream::new should only be called once"
      ensures initialized
      ensures queue == old(queue) && waker == old(waker) && woken == old(woken)
      ensures accepted == old(accepted) && delivered == old(delivered)
    {
      if initialized {
        r := Err("ScancodeStream::new should only be called once");
      } else {
        initialized := true;
        r := Ok(());
      }
    }

    /** `add_scancode`: without a queue, or with a full one, the byte is dropped
        with a warning and nothing else changes; otherwise it joins the back of the
        queue and the registered waker, if any, is taken and woken. */
    method AddScancode(scancode: byte) returns (printed: seq<string>)
      requires Valid()
      modifies this
      ensures Valid()
      ensures initialized == old(initialized) && delivered == old(delivered)
      ensures !old(initialized) ==>
        && printed == ["WARNING: scancode queue uninitialized"]
        && queue == old(queue) && waker == old(waker) && woken == old(woken) && accepted == old(accepted)
      ensures old(initialized) && |old(queue)| == QueueCapacity ==>
        && printed == ["WARNING: scancode queue full; dropping keyboard input"]
        && queue == old(queue) && waker == old(waker) && woken == old(woken) && accepted == old(accepted)
      ensures old(initialized) && |old(queue)| < QueueCapacity ==>
        && printed == []
        && queue == old(queue) + [scancode]
        && accepted == old(accepted) + [scancode]
        && waker == None
        && woken == old(woken) + (if old(waker).Some? then [old(waker).value] else [])
    {
      if !initialized {
        printed := ["WARNING: scancode queue uninitialized"];
      } else if |queue| == QueueCapacity {
        printed := ["WARNING: scancode queue full; dropping keyboard input"];
      } else {
        queue := queue + [scancode];
        accepted := accepted + [scancode];
        printed := [];
        if waker.Some? {
          woken := woken + [waker.value];
          waker := None;
        }
      }
    }

    /** `poll_next` for the task whose waker is `cx`. A non-empty queue gives up its
        front byte at once. Otherwise the waker is registered and the queue checked
        once more; `arrival` is the keyboard interrupt that may run between the two
        checks. A byte found then is returned and the slot cleared; else the poll is
        pending with the waker left registered. */
    method PollNext(cx: Waker, arrival: Option<byte>) returns (p: Poll)
      requires Valid()
      modifies this
      ensures Valid()
      ensures initialized == old(initialized)
      ensures accepted == old(accepted) + (if old(initialized) && old(queue) == [] then OptionToSeq(arrival) else [])
      ensures p != Ready(None)
      ensures !old(initialized) ==> p == Uninitialized && queue == old(queue) && waker == old(waker)
      ensures old(initialized) && old(queue) != [] ==>
        && p == Ready(Some(old(queue)[0]))
        && queue == old(queue)[1..] && waker == old(waker) && woken == old(woken)
      ensures old(initialized) && old(queue) == [] && arrival.None? ==>
        && p == Pending && queue == [] && waker == Some(cx) && woken == old(woken)
      ensures old(initialized) && old(queue) == [] && arrival.Some? ==>
        && p == Ready(arrival) && queue == [] && waker == None && woken == old(woken) + [cx]
      ensures p.Ready? ==> delivered == old(delivered) + [p.item.value]
      ensures !p.Ready? ==> delivered == old(delivered)
    {
      if !initialized {
        return Uninitialized;
      }
      if queue != [] {
        p := Ready(Some(queue[0]));
        delivered := delivered + [queue[0]];
        queue := queue[1..];
        return;
      }
      waker := Some(cx);
      if arrival.Some? {
        var _ := AddScancode(arrival.value);
      }
      if queue != [] {
        p := Ready(Some(queue[0]));
        delivered := delivered + [queue[0]];
        queue := queue[1..];
        waker := None;
      } else {
        p := Pending;
      }
    }
  }

  /** The line buffer's size, `INPUT_BUFFER_SIZE`. */
  const InputBufferSize: nat := 256

  const Backspace: char := '\U{8}'

  /** A key as `pc_keyboard` decodes it. */
  datatype DecodedKey = Unicode(c: char) | RawKey(code: nat)

  /** What the editor does for a key besides updating its buffer: on newline it
      hands the line to `handle_command` (recording what that prints), on
      backspace it erases the previous symbol on screen, otherwise it echoes. */
  datatype EditAction =
    | Submit(command: seq<byte>, printed: seq<string>)
    | Erase
    | Echo(c: char)
    | EchoRaw(code: nat)

  /** The contents of `INPUT_BUFFER` and `INPUT_BUFFER_POSITION`. */
  datatype EditorState = EditorState(buffer: seq<byte>, position: nat) {
    predicate Valid() {
      |buffer| == InputBufferSize && position <= InputBufferSize
    }

    /** The line typed so far. */
    function Line(): seq<byte>
      requires Valid()
    {
      buffer[..position]
    }
  }

  function Zeroes(n: nat): (z: seq<byte>)
    ensures |z| == n && forall k :: 0 <= k < n ==> z[k] == 0
  {
    if n == 0 then [] else Zeroes(n - 1) + [0]
  }

  /** The editor at boot, and after every newline. */
  function Initial(): (s: EditorState)
    ensures s.Valid() && s.Line() == []
  {
    EditorState(Zeroes(InputBufferSize), 0)
  }

  /** The `character as u8` cast: the low 8 bits of the code point. */
  function Truncate(c: char): (b: byte) {
    (c as int) % 256
  }

  /** One key of the line editor. */
  function Step(s: EditorState, key: DecodedKey): (r: (EditorState, EditAction))
    requires s.Valid()
    ensures r.0.Valid()
  {
    match key
    case RawKey(code) => (s, EchoRaw(code))
    case Unicode(c) =>
      if c == '\n' then
        (Initial(), Submit(s.Line(), Commands.HandleCommand(s.Line())))
      else if c == Backspace then
        (s.(position := if s.position > 0 then s.position - 1 else 0), Erase)
      else if s.position < InputBufferSize then
        (EditorState(s.buffer[s.position := Truncate(c)], s.position + 1), Echo(c))
      else
        (s, Echo(c))
  }

  /** The line as a user sees it: a backspace removes the last byte of a non-empty
      line, any other character is appended unless the line is full. */
  function Edit(line: seq<byte>, c: char): seq<byte> {
    if c == Backspace then (if line == [] then [] else line[..|line| - 1])
    else if |line| < InputBufferSize then line + [Truncate(c)]
    else line
  }

  /** A key that is not a newline changes the typed line as `Edit` says; raw keys
      leave it alone. A newline submits exactly the typed line and starts afresh. */
  lemma StepLine(s: EditorState, key: DecodedKey)
    requires s.Valid()
    ensures key == Unicode('\n') ==>
      Step(s, key) == (Initial(), Submit(s.Line(), Commands.HandleCommand(s.Line())))
    ensures key.RawKey? ==> Step(s, key).0 == s
    ensures key.Unicode? && key.c != '\n' ==> Step(s, key).0.Line() == Edit(s.Line(), key.c)
  {
    if key.Unicode? && key.c != '\n' && key.c != Backspace && s.position < InputBufferSize {
      var t := Step(s, key).0;
      assert t.buffer[..t.position] == s.buffer[..s.position] + [Truncate(key.c)];
    }
  }

  predicate NoNewline(keys: seq<DecodedKey>) {
    forall k :: 0 <= k < |keys| ==> keys[k] != Unicode('\n')
  }

  /** The editor after a run of keys, and the actions it took. */
  function Run(s: EditorState, keys: seq<DecodedKey>): (t: EditorState)
    requires s.Valid()
    ensures t.Valid()
  {
    if keys == [] then s else Step(Run(s, keys[..|keys| - 1]), keys[|keys| - 1]).0
  }

  function Actions(s: EditorState, keys: seq<DecodedKey>): (acts: seq<EditAction>)
    requires s.Valid()
    ensures |acts| == |keys|
  {
    if keys == [] then []
    else Actions(s, keys[..|keys| - 1]) + [Step(Run(s, keys[..|keys| - 1]), keys[|keys| - 1]).1]
  }

  /** The typed line after a run of keys without newline, by `Edit` alone. */
  function Typed(line: seq<byte>, keys: seq<DecodedKey>): seq<byte> {
    if keys == [] then line
    else
      var before := Typed(line, keys[..|keys| - 1]);
      match keys[|keys| - 1]
      case RawKey(_) => before
      case Unicode(c) => Edit(before, c)
  }

  /** Over keys without a newline, the editor's line is the `Edit` reading of them. */
  lemma {:induction false} RunTyped(s: EditorState, keys: seq<DecodedKey>)
    requires s.Valid() && NoNewline(keys)
    ensures Run(s, keys).Line() == Typed(s.Line(), keys)
  {
    if keys != [] {
      var init := keys[..|keys| - 1];
      assert NoNewline(init) by {
        forall k | 0 <= k < |init| ensures init[k] != Unicode('\n') {
          assert init[k] == keys[k];
        }
      }
      RunTyped(s, init);
      StepLine(Run(s, init), keys[|keys| - 1]);
    }
  }

  /** Pressing Enter after a run of keys without newline hands `handle_command`
      exactly the line those keys typed. */
  lemma SubmitTyped(keys: seq<DecodedKey>)
    requires NoNewline(keys)
    ensures var line := Typed([], keys);
      Step(Run(Initial(), keys), Unicode('\n')) == (Initial(), Submit(line, Commands.HandleCommand(line)))
  {
    RunTyped(Initial(), keys);
    StepLine(Run(Initial(), keys), Unicode('\n'));
  }

  /** A character followed by a backspace leaves a line that was not full as it was. */
  lemma TypeThenErase(line: seq<byte>, c: char)
    requires |line| < InputBufferSize && c != Backspace
    ensures Edit(Edit(line, c), Backspace) == line
  {
    assert (line + [Truncate(c)])[..|line|] == line;
  }

  /** The line never grows past the buffer, and a backspace never goes below empty. */
  lemma EditBounds(line: seq<byte>, c: char)
    requires |line| <= InputBufferSize
    ensures |Edit(line, c)| <= InputBufferSize
    ensures c == Backspace ==> |Edit(line, c)| == if line == [] then 0 else |line| - 1
    ensures c != Backspace ==> |Edit(line, c)| == if |line| < InputBufferSize then |line| + 1 else |line|
  {
  }

  /** `INPUT_BUFFER` and `INPUT_BUFFER_POSITION`, edited in place. */
  class LineEditor {
    const buffer: array<byte>
    var position: nat

    ghost predicate Valid()
      reads this
    {
      buffer.Length == InputBufferSize && position <= InputBufferSize
    }

    function State(): (s: EditorState)
      requires Valid()
      reads this, buffer
      ensures s.Valid()
    {
      EditorState(buffer[..], position)
    }

    constructor()
      ensures Valid() && State() == Initial()
      ensures fresh(buffer)
    {
      buffer := new byte[InputBufferSize](_ => 0);
      position := 0;
      new;
      assert buffer[..] == Zeroes(InputBufferSize);
    }

    /** The body of the `DecodedKey` match: newline submits `buffer[..position]`
        and then zeroes the buffer and position; backspace lowers a positive
        position; any other character is stored as a byte while there is room. */
    method HandleKey(key: DecodedKey) returns (action: EditAction)
      requires Valid()
      modifies this, buffer
      ensures Valid()
      ensures (State(), action) == Step(old(State()), key)
    {
      match key
      case RawKey(code) =>
        action := EchoRaw(code);
      case Unicode(c) =>
        if c == '\n' {
          var command := buffer[..position];
          action := Submit(command, Commands.HandleCommand(command));
          forall i | 0 <= i < buffer.Length {
            buffer[i] := 0;
          }
          position := 0;
          assert buffer[..] == Zeroes(InputBufferSize);
        } else if c == Backspace {
          action := Erase;
          if position > 0 {
            position := position - 1;
          }
        } else {
          action := Echo(c);
          if position < InputBufferSize {
            buffer[position] := Truncate(c);
            position := position + 1;
          }
        }
    }
  }

  /** The `while let` loop of `print_keypress`, over keys already decoded from the
      stream's scancodes: each key goes through the editor in turn. */
  method PrintKeypress(editor: LineEditor, keys: seq<DecodedKey>) returns (actions: seq<EditAction>)
    requires editor.Valid()
    modifies editor, editor.buffer
    ensures editor.Valid()
    ensures editor.State() == Run(old(editor.State()), keys)
    ensures actions == Actions(old(editor.State()), keys)
  {
    ghost var s0 := editor.State();
    actions := [];
    var i := 0;
    while i < |keys|
      invariant 0 <= i <= |keys|
      invariant editor.Valid()
      invariant editor.State() == Run(s0, keys[..i])
      invariant actions == Actions(s0, keys[..i])
    {
      var action := editor.HandleKey(keys[i]);
      assert keys[..i + 1][..i] == keys[..i];
      actions := actions + [action];
      i := i + 1;
    }
    assert keys[..|keys|] == keys;
  }
}
