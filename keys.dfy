/** Keys, modifiers and mouse events: the values the input decoder produces. */
module Keys {
  import opened Text
  import opened Wrappers

  /** The state of a `Key` object. `key` is the lower-cased name or
      character; `printable` is set by the decoder for literal characters
      and is not part of equality or hashing. */
  datatype Key = Key(key: string, ctrl: bool, alt: bool, shift: bool, printable: bool)

  /** A `Mod`: only modifier bits, used as the right operand of `+`. */
  datatype Mod = Mod(ctrl: bool, alt: bool, shift: bool)

  /** An xterm mouse report, with zero-based cell coordinates. */
  datatype MouseEvent = MouseEvent(x: int, y: int, left: bool, right: bool, down: bool, up: bool, btns: int)

  /** What the decoder yields. */
  datatype Event = KeyEvent(k: Key) | MouseEv(m: MouseEvent)

  /** `is_printable()`: literal keys only; mouse events never. */
  predicate IsPrintable(e: Event) {
    e.KeyEvent? && e.k.printable
  }

  /** The `Key(key, ctrl, alt, shift)` constructor: lower-cases the name and
      turns an upper-case name into `shift`. */
  function NewKey(key: string, ctrl: bool, alt: bool, shift: bool, printable: bool): (k: Key)
    ensures k.key == Lower(key)
    ensures |k.key| == |key| && !HasUpper(k.key)
    ensures k.shift <==> shift || IsUpper(key)
    ensures k.ctrl == ctrl && k.alt == alt && k.printable == printable
  {
    Key(Lower(key), ctrl, alt, shift || IsUpper(key), printable)
  }

  /** `Key(c)` with every flag at its default. */
  function KeyOf(key: string): Key { NewKey(key, false, false, false, false) }

  /** Field-wise equality of `__eq__` between two keys. */
  predicate Eq(a: Key, b: Key) {
    a.key == b.key && a.ctrl == b.ctrl && a.alt == b.alt && a.shift == b.shift
  }

  /** The right operand of `==` or `+`. */
  datatype Operand = KeyArg(k: Key) | ModArg(m: Mod) | StrArg(s: string) | IntArg(n: int) | OtherArg

  datatype EqResult = Bool(b: bool) | NotImplemented | Raises(e: Error)

  predicate IsScalar(n: int) { 0 <= n < 0xD800 || 0xE000 <= n < 0x11_0000 }

  /** `Key.__eq__`: a str is compared as `Key(other)`, an int as
      `Key(chr(other))`; anything else is `NotImplemented`. */
  function Equals(k: Key, other: Operand): (r: EqResult)
    ensures other.KeyArg? || other.StrArg? || other.ModArg? ==> r.Bool?
    ensures other.KeyArg? ==> (r == Bool(true) <==> Eq(k, other.k))
    ensures other.StrArg? ==> (r == Bool(true) <==> Eq(k, KeyOf(other.s)))
    ensures other.ModArg? ==> r == Bool(false)
    ensures other.IntArg? && IsScalar(other.n) ==> r == Bool(Eq(k, KeyOf([other.n as char])))
    ensures other.IntArg? && 0 <= other.n < 0x11_0000 && !IsScalar(other.n) ==> r == Bool(false)
    ensures other.OtherArg? ==> r == NotImplemented
    ensures r.Raises? <==> other.IntArg? && !(0 <= other.n < 0x11_0000)
  {
    match other
    case KeyArg(o) => Bool(Eq(k, o))
    // a Mod's key is None, never equal to a key string
    case ModArg(_) => Bool(false)
    case StrArg(s) => Bool(Eq(k, KeyOf(s)))
    case IntArg(n) =>
      if IsScalar(n) then Bool(Eq(k, KeyOf([n as char])))
      // chr() of a surrogate is a lone surrogate, which no key string holds
      else if 0 <= n < 0x11_0000 then Bool(false)
      else Raises(ValueError)
    case OtherArg => NotImplemented
  }

  /** The tuple that `__hash__` hashes. */
  function HashedFields(k: Key): (string, bool, bool, bool) {
    (k.key, k.ctrl, k.alt, k.shift)
  }

  /** `__hash__`, for any hash function on the field tuple. */
  function Hash(k: Key, h: ((string, bool, bool, bool)) -> int): int {
    h(HashedFields(k))
  }

  lemma EqIffSameHashedFields(a: Key, b: Key)
    ensures Eq(a, b) <==> HashedFields(a) == HashedFields(b)
  {
  }

  lemma EqualKeysHashEqually(a: Key, b: Key, h: ((string, bool, bool, bool)) -> int)
    requires Equals(a, KeyArg(b)) == Bool(true)
    ensures Hash(a, h) == Hash(b, h)
  {
  }

  /** `k + m`: a copy made through the constructor (so without the
      printable flag), with the modifiers OR-ed in. */
  function Compose(k: Key, m: Mod): (r: Key)
    ensures r.key == k.key && !r.printable
    ensures (k.ctrl ==> r.ctrl) && (k.alt ==> r.alt) && (k.shift ==> r.shift)
    ensures (m.ctrl ==> r.ctrl) && (m.alt ==> r.alt) && (m.shift ==> r.shift)
  {
    Key(k.key, k.ctrl || m.ctrl, k.alt || m.alt, k.shift || m.shift, false)
  }

  lemma ComposeCommutes(k: Key, a: Mod, b: Mod)
    ensures Compose(Compose(k, a), b) == Compose(Compose(k, b), a)
  {
  }

  lemma ComposeIdempotent(k: Key, a: Mod)
    ensures Compose(Compose(k, a), a) == Compose(k, a)
  {
  }

  /** Adding modifiers never clears one: the result has exactly the union. */
  lemma ComposeIsUnion(k: Key, m: Mod)
    ensures Eq(Compose(k, m), Key(k.key, k.ctrl || m.ctrl, k.alt || m.alt, k.shift || m.shift, k.printable))
  {
  }

  /** `str(k)`: the name, upper-cased iff shift. */
  function Str(k: Key): string {
    if k.shift then Upper(k.key) else k.key
  }

  /** `str(Key(s)) == s` whenever `s` is not of mixed case; in particular for
      every single character. */
  lemma StrOfNewKey(s: string, ctrl: bool, alt: bool)
    requires IsUpper(s) || !HasUpper(s)
    ensures Str(NewKey(s, ctrl, alt, false, false)) == s
  {
    var k := NewKey(s, ctrl, alt, false, false);
    if IsUpper(s) {
      forall i | 0 <= i < |s| ensures Str(k)[i] == s[i] {
        assert !IsLowerAscii(s[i]);
      }
    } else {
      forall i | 0 <= i < |s| ensures Str(k)[i] == s[i] {
        assert !IsUpperAscii(s[i]);
      }
    }
  }

  lemma StrOfSingleChar(c: char)
    ensures Str(KeyOf([c])) == [c]
  {
    StrOfNewKey([c], false, false);
  }

  /** Re-reading the printed form of a constructed key gives an equal key,
      provided a shifted key has a letter to show the shift. */
  lemma NewKeyOfStr(k: Key)
    requires !HasUpper(k.key)
    requires k.shift ==> exists i :: 0 <= i < |k.key| && IsLowerAscii(k.key[i])
    ensures Eq(NewKey(Str(k), k.ctrl, k.alt, false, k.printable), k)
  {
    var s := Str(k);
    var r := NewKey(s, k.ctrl, k.alt, false, k.printable);
    forall i | 0 <= i < |k.key| ensures r.key[i] == k.key[i] {
      assert !IsUpperAscii(k.key[i]);
    }
    if k.shift {
      var j :| 0 <= j < |k.key| && IsLowerAscii(k.key[j]);
      assert IsUpperAscii(s[j]);
    } else {
      assert !HasUpper(s);
    }
  }

  /** The constructor is idempotent on its own output. */
  lemma NewKeyIdempotent(s: string, ctrl: bool, alt: bool, shift: bool, p: bool)
    ensures var k := NewKey(s, ctrl, alt, shift, p);
            NewKey(k.key, k.ctrl, k.alt, k.shift, k.printable) == k
  {
    var k := NewKey(s, ctrl, alt, shift, p);
    forall i | 0 <= i < |k.key| ensures LowerChar(k.key[i]) == k.key[i] {
      assert !IsUpperAscii(k.key[i]);
    }
    assert !IsUpper(k.key);
  }

  /** `Key("a", shift=True) == "A"`. */
  lemma ShiftedEqualsUpperString()
    ensures Equals(NewKey("a", false, false, true, false), StrArg("A")) == Bool(true)
  {
    assert IsUpper("A") by { assert IsUpperAscii("A"[0]); }
    assert !IsUpper("a") by { assert IsLowerAscii("a"[0]); }
    assert Lower("A") == "a";
  }

  const ModCtrl: Mod := Mod(true, false, false)
  const ModAlt: Mod := Mod(false, true, false)
  const ModShift: Mod := Mod(false, false, true)

  const KeyUp: Key := Key("up", false, false, false, false)
  const KeyDown: Key := Key("down", false, false, false, false)
  const KeyRight: Key := Key("right", false, false, false, false)
  const KeyLeft: Key := Key("left", false, false, false, false)
  const KeyIns: Key := Key("insert", false, false, false, false)
  const KeyDel: Key := Key("delete", false, false, false, false)
  const KeyHome: Key := Key("home", false, false, false, false)
  const KeyEnd: Key := Key("end", false, false, false, false)
  const KeyPgUp: Key := Key("pageup", false, false, false, false)
  const KeyPgDn: Key := Key("pagedown", false, false, false, false)
  const KeyF1: Key := Key("f1", false, false, false, false)
  const KeyF2: Key := Key("f2", false, false, false, false)
  const KeyF3: Key := Key("f3", false, false, false, false)
  const KeyF4: Key := Key("f4", false, false, false, false)
  const KeyF5: Key := Key("f5", false, false, false, false)
  const KeyF6: Key := Key("f6", false, false, false, false)
  const KeyF7: Key := Key("f7", false, false, false, false)
  const KeyF8: Key := Key("f8", false, false, false, false)
  const KeyF9: Key := Key("f9", false, false, false, false)
  const KeyF10: Key := Key("f10", false, false, false, false)
  const KeyF11: Key := Key("f11", false, false, false, false)
  const KeyF12: Key := Key("f12", false, false, false, false)
  /** The keys the decoder and the line editor name but keys.py does not
      define: the raw characters a terminal in cbreak mode sends. */
  const KeyEsc: Key := Key("\U{1b}", false, false, false, false)
  const KeyTab: Key := Key("\t", false, false, false, false)
  const KeyEnter: Key := Key("\n", false, false, false, false)
  const KeyBackspace: Key := Key("\U{7f}", false, false, false, false)

  /** The named constants are what the constructor makes of their names. */
  lemma NamedKeysAreConstructed()
    ensures KeyUp == KeyOf("up") && KeyPgUp == KeyOf("pageup") && KeyF12 == KeyOf("f12")
    ensures KeyEsc == KeyOf("\U{1b}") && KeyEnter == KeyOf("\n") && KeyTab == KeyOf("\t")
    ensures KeyBackspace == KeyOf("\U{7f}")
  {
    assert !IsUpper("up") by { assert IsLowerAscii("up"[0]); }
    assert !IsUpper("pageup") by { assert IsLowerAscii("pageup"[0]); }
    assert !IsUpper("f12") by { assert IsLowerAscii("f12"[0]); }
    assert Lower("up") == "up";
    assert Lower("pageup") == "pageup";
    assert Lower("f12") == "f12";
    assert Lower("\U{1b}") == "\U{1b}";
    assert Lower("\n") == "\n";
    assert Lower("\t") == "\t";
    assert Lower("\U{7f}") == "\U{7f}";
  }

  datatype IAddResult = ReturnsSelf | IAddNotImplemented

  /** A `Key` object, for the operations that update one in place. */
  class KeyObject {
    var key: string
    var ctrl: bool
    var alt: bool
    var shift: bool
    var printable: bool

    function Value(): Key
      reads this
    {
      Key(key, ctrl, alt, shift, printable)
    }

    /** The constructor only ever stores a lower-cased name. */
    ghost predicate Valid()
      reads this
    {
      !HasUpper(key)
    }

    constructor (k: string, ctrl: bool, alt: bool, shift: bool, printable: bool)
      ensures Valid()
      ensures Value() == NewKey(k, ctrl, alt, shift, printable)
    {
      var v := NewKey(k, ctrl, alt, shift, printable);
      key, this.ctrl, this.alt, this.shift, this.printable := v.key, v.ctrl, v.alt, v.shift, v.printable;
    }

    /** `k += other`: OR in a `Mod`'s bits in place; any other operand gives
        `NotImplemented` and changes nothing. */
    method IAdd(other: Operand) returns (r: IAddResult)
      requires Valid()
      modifies this
      ensures Valid()
      ensures other.ModArg? ==> r == ReturnsSelf && Eq(Value(), Compose(old(Value()), other.m))
      ensures other.ModArg? ==> printable == old(printable)
      ensures !other.ModArg? ==> r == IAddNotImplemented && Value() == old(Value())
    {
      if !other.ModArg? {
        return IAddNotImplemented;
      }
      ctrl := ctrl || other.m.ctrl;
      alt := alt || other.m.alt;
      shift := shift || other.m.shift;
      r := ReturnsSelf;
    }

    /** `k + other`: copy through the constructor, then `+=` on the copy.
        With a non-`Mod` operand the copy's `+=` falls back to `+` again,
        without end. */
    method Add(other: Operand) returns (r: Result<KeyObject>)
      requires Valid()
      ensures other.ModArg? ==> r.Success? && fresh(r.value) && r.value.Valid()
      ensures other.ModArg? ==> r.value.Value() == Compose(Value(), other.m)
      ensures !other.ModArg? ==> r == Failure(RecursionError)
    {
      if !other.ModArg? {
        return Failure(RecursionError);
      }
      var k := new KeyObject(key, ctrl, alt, shift, false);
      assert !IsUpper(key);
      forall i | 0 <= i < |key| ensures LowerChar(key[i]) == key[i] {
        assert !IsUpperAscii(key[i]);
      }
      var _ := k.IAdd(other);
      r := Success(k);
    }
  }
}
