/**
 * The Keyboard of src/input/Keyboard.js: a 256-entry Int32Array of key
 * states, -1 for a key that is up and the timestamp of the last key-down
 * otherwise, written in place by the key event handlers.
 */
module Keyboards {
  import opened Wrappers
  import JsValues

  /** The key names of Keyboard.KEY. */
  datatype Key =
    | BACKSPACE | TAB | ENTER | SHIFT | CTRL | ALT | PAUSE_BREAK | CAPS_LOCK | ESCAPE | SPACE
    | PAGE_UP | PAGE_DOWN | END | HOME | LEFT_ARROW | UP_ARROW | RIGHT_ARROW | DOWN_ARROW | INSERT
    | DELETE | NUM_0 | NUM_1 | NUM_2 | NUM_3 | NUM_4 | NUM_5 | NUM_6 | NUM_7 | NUM_8 | NUM_9 | A
    | B | C | D | E | F | G | H | I | J | K | L | M | N | O | P | Q | R | S | T | U | V | W | X | Y
    | Z | LEFT_WINDOW | RIGHT_WINDOW | SELECT_KEY | NUMPAD_0 | NUMPAD_1 | NUMPAD_2 | NUMPAD_3
    | NUMPAD_4 | NUMPAD_5 | NUMPAD_6 | NUMPAD_7 | NUMPAD_8 | NUMPAD_9 | MULTIPLY | ADD | SUBTRACT
    | DECIMAL_POINT | DIVIDE | F1 | F2 | F3 | F4 | F5 | F6 | F7 | F8 | F9 | F10 | F11 | F12
    | NUM_LOCK | SCROLL_LOCK | SEMICOLON | EQUAL_SIGN | COMMA | DASH | PERIOD | FORWARD_SLASH
    | GRAVE_ACCENT | OPEN_BRACKET | BACK_SLASH | CLOSE_BRAKET | SINGLE_QUOTE

  /** Keyboard.KEY: the key code of each named key. */
  function Code(k: Key): (c: nat)
    ensures c < 256
  {
    match k
    case BACKSPACE => 8
    case TAB => 9
    case ENTER => 13
    case SHIFT => 16
    case CTRL => 17
    case ALT => 18
    case PAUSE_BREAK => 19
    case CAPS_LOCK => 20
    case ESCAPE => 27
    case SPACE => 32
    case PAGE_UP => 33
    case PAGE_DOWN => 34
    case END => 35
    case HOME => 36
    case LEFT_ARROW => 37
    case UP_ARROW => 38
    case RIGHT_ARROW => 39
    case DOWN_ARROW => 40
    case INSERT => 45
    case DELETE => 46
    case NUM_0 => 48
    case NUM_1 => 49
    case NUM_2 => 50
    case NUM_3 => 51
    case NUM_4 => 52
    case NUM_5 => 53
    case NUM_6 => 54
    case NUM_7 => 55
    case NUM_8 => 56
    case NUM_9 => 57
    case A => 65
    case B => 66
    case C => 67
    case D => 68
    case E => 69
    case F => 70
    case G => 71
    case H => 72
    case I => 73
    case J => 74
    case K => 75
    case L => 76
    case M => 77
    case N => 78
    case O => 79
    case P => 80
    case Q => 81
    case R => 82
    case S => 83
    case T => 84
    case U => 85
    case V => 86
    case W => 87
    case X => 88
    case Y => 89
    case Z => 90
    case LEFT_WINDOW => 91
    case RIGHT_WINDOW => 92
    case SELECT_KEY => 93
    case NUMPAD_0 => 96
    case NUMPAD_1 => 97
    case NUMPAD_2 => 98
    case NUMPAD_3 => 99
    case NUMPAD_4 => 100
    case NUMPAD_5 => 101
    case NUMPAD_6 => 102
    case NUMPAD_7 => 103
    case NUMPAD_8 => 104
    case NUMPAD_9 => 105
    case MULTIPLY => 106
    case ADD => 107
    case SUBTRACT => 109
    case DECIMAL_POINT => 110
    case DIVIDE => 111
    case F1 => 112
    case F2 => 113
    case F3 => 114
    case F4 => 115
    case F5 => 116
    case F6 => 117
    case F7 => 118
    case F8 => 119
    case F9 => 120
    case F10 => 121
    case F11 => 122
    case F12 => 123
    case NUM_LOCK => 144
    case SCROLL_LOCK => 145
    case SEMICOLON => 186
    case EQUAL_SIGN => 187
    case COMMA => 188
    case DASH => 189
    case PERIOD => 190
    case FORWARD_SLASH => 191
    case GRAVE_ACCENT => 192
    case OPEN_BRACKET => 219
    case BACK_SLASH => 220
    case CLOSE_BRAKET => 221
    case SINGLE_QUOTE => 222
  }

  /** The keys whose default browser action onKeyDown prevents. */
  predicate PreventsDefault(keyCode: int)
  {
    keyCode == Code(BACKSPACE) || keyCode == Code(UP_ARROW) || keyCode == Code(DOWN_ARROW)
    || keyCode == Code(LEFT_ARROW) || keyCode == Code(RIGHT_ARROW) || keyCode == Code(PAGE_UP)
    || keyCode == Code(PAGE_DOWN) || keyCode == Code(SPACE)
  }

  /** Exactly eight codes have their default prevented: backspace, space, page up/down and the arrows. */
  lemma PreventsDefaultCodes(keyCode: int)
    ensures PreventsDefault(keyCode) <==> keyCode in {8, 32, 33, 34, 37, 38, 39, 40}
  {
  }

  /** A DOM key event, reduced to its key code and the effects of its two methods. */
  class KeyEvent {
    var keyCode: int
    var propagationStopped: bool
    var defaultPrevented: bool

    constructor(keyCode: int)
      ensures this.keyCode == keyCode && !propagationStopped && !defaultPrevented
    {
      this.keyCode := keyCode;
      propagationStopped := false;
      defaultPrevented := false;
    }
  }

  /** The value an Int32Array element holds after being assigned the number `time`. */
  function Stored(time: real): (v: int)
    ensures -JsValues.TWO_31 <= v < JsValues.TWO_31
    ensures -(JsValues.TWO_31 as real) < time < JsValues.TWO_31 as real ==> v == JsValues.Trunc(time)
  {
    JsValues.Int32Of(time)
  }

  /** A key pressed at a timestamp whose 32-bit wrap is -1 reads as not pressed, e.g. at time 2^32 - 1. */
  lemma WrappedTimestampReadsAsUp()
    ensures Stored(4294967295.0) == -1
    ensures Stored(4294967296.0) == 0
  {
    assert JsValues.Trunc(4294967295.0) == 4294967295;
    assert JsValues.Trunc(4294967296.0) == 4294967296;
  }

  class Keyboard {
    /** The Int32Array of key states. */
    const pressed: array<int>

    predicate Valid()
      reads this
    {
      pressed.Length == 256
    }

    /** Every key starts up. */
    constructor()
      ensures Valid() && fresh(pressed)
      ensures forall i :: 0 <= i < pressed.Length ==> pressed[i] == -1
    {
      var a := new int[256];
      var i := 0;
      while i < a.Length
        invariant 0 <= i <= a.Length
        invariant forall j :: 0 <= j < i ==> a[j] == -1
      {
        a[i] := -1;
        i := i + 1;
      }
      pressed := a;
    }

    /**
     * isDown: the timestamp of the last key-down of the key, or None (null)
     * when it is up; a code outside the table reads `undefined`, also None.
     */
    function IsDown(keyCode: int): (r: Option<int>)
      reads this, pressed
      ensures r.None? <==> !(0 <= keyCode < pressed.Length) || pressed[keyCode] == -1
      ensures r.Some? ==> r.value == pressed[keyCode] && r.value != -1
    {
      if 0 <= keyCode < pressed.Length && pressed[keyCode] != -1 then Some(pressed[keyCode]) else None
    }

    /**
     * onKeyDown: stops propagation, prevents the default action of the eight
     * navigation keys, and stores the time in the key's entry; a code
     * outside the table changes no entry.
     */
    method OnKeyDown(event: KeyEvent, time: real)
      requires Valid()
      modifies pressed, event
      ensures event.keyCode == old(event.keyCode) && event.propagationStopped
      ensures event.defaultPrevented == (old(event.defaultPrevented) || PreventsDefault(event.keyCode))
      ensures 0 <= event.keyCode < 256 ==> pressed[..] == old(pressed[..])[event.keyCode := Stored(time)]
      ensures !(0 <= event.keyCode < 256) ==> pressed[..] == old(pressed[..])
      ensures 0 <= event.keyCode < 256 ==> IsDown(event.keyCode) == if Stored(time) == -1 then None else Some(Stored(time))
    {
      event.propagationStopped := true;
      if PreventsDefault(event.keyCode) {
        event.defaultPrevented := true;
      }
      var k := event.keyCode;
      if 0 <= k < pressed.Length {
        pressed[k] := JsValues.Int32Of(time);
      }
    }

    /** onKeyUp: stops propagation and marks the key up. */
    method OnKeyUp(event: KeyEvent)
      requires Valid()
      modifies pressed, event
      ensures event.keyCode == old(event.keyCode) && event.propagationStopped
      ensures event.defaultPrevented == old(event.defaultPrevented)
      ensures 0 <= event.keyCode < 256 ==> pressed[..] == old(pressed[..])[event.keyCode := -1]
      ensures !(0 <= event.keyCode < 256) ==> pressed[..] == old(pressed[..])
      ensures IsDown(event.keyCode) == None
    {
      event.propagationStopped := true;
      var k := event.keyCode;
      if 0 <= k < pressed.Length {
        pressed[k] := -1;
      }
    }
  }
}
