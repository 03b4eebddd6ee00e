/** The configuration file of the hub: the fields, how a file sets them, and the text that sets them to given values. */
module HubConfig {
  import opened JsonScan
  import opened Options

  datatype Range = Any | Positive | Qos

  datatype Field = Text(key: string, initial: string, size: nat) | Number(key: string, value: int, range: Range)

  const FRAME: int := 1920 * 1080 * 2

  const COUNT: nat := 23

  /** The fields with their defaults, in the order in which they are read. */
  function FieldAt(i: nat): Field
    requires i < COUNT
  {
    match i
    case 0 => Text("mqtt_host", "127.0.0.1", 128)
    case 1 => Number("mqtt_port", 1883, Any)
    case 2 => Text("mqtt_client_id", "smart_home_hub", 128)
    case 3 => Text("mqtt_username", "", 128)
    case 4 => Text("mqtt_password", "", 128)
    case 5 => Text("mqtt_topic_up", "/iot/up", 128)
    case 6 => Text("mqtt_topic_down", "/iot/down", 128)
    case 7 => Text("mqtt_topic_resp", "/iot/resp", 128)
    case 8 => Number("mqtt_qos_report", 0, Qos)
    case 9 => Number("mqtt_qos_control", 1, Qos)
    case 10 => Number("mqtt_qos_response", 1, Qos)
    case 11 => Number("mqtt_keepalive_sec", 20, Any)
    case 12 => Number("mqtt_reconnect_sec", 5, Any)
    case 13 => Number("report_interval_sec", 5, Any)
    case 14 => Text("led_dev", "/dev/hub_led", 64)
    case 15 => Text("dht11_dev", "/dev/mydht11", 64)
    case 16 => Text("video_dev", "/dev/video0", 64)
    case 17 => Number("video_width", 640, Any)
    case 18 => Number("video_height", 480, Any)
    case 19 => Number("video_fps", 30, Any)
    case 20 => Number("pool_block_count", 4, Positive)
    case 21 => Number("pool_block_size", FRAME, Positive)
    case 22 => Text("media_default_file", "/root/media/test.wav", 256)
  }

  datatype Value = T(text: string) | N(number: int)

  predicate InRange(range: Range, v: int) {
    match range
    case Any => true
    case Positive => v > 0
    case Qos => 0 <= v <= 2
  }

  /** A number out of range is replaced by the default. */
  function Clamped(f: Field, v: int): int
    requires f.Number?
  {
    if InRange(f.range, v) then v else f.value
  }

  /** A field's buffer, zeroed and then set to the default. */
  function Blank(f: Field): (s: string)
    requires f.Text? && |f.initial| < f.size
    ensures |s| == f.size
  {
    f.initial + seq(f.size - |f.initial|, _ => NUL)
  }

  /** A key begins with a letter and has no quote, no colon and no NUL in it. */
  predicate Word(key: string) {
    key != [] && 'a' <= key[0] <= 'z' && forall i :: 0 <= i < |key| ==> key[i] != '"' && key[i] != ':' && key[i] != NUL
  }

  /** A buffer that holds the default of its field. */
  ghost predicate IsBlank(f: Field, s: string) {
    f.Text? && |f.initial| < f.size && s == Blank(f)
  }

  predicate Sound(f: Field) {
    && Word(f.key)
    && (f.Text? ==> |f.initial| < f.size)
    && (f.Number? ==> InRange(f.range, f.value) && -0x8000_0000 <= f.value < 0x8000_0000)
  }

  function Default(f: Field): Value
    requires Sound(f)
  {
    if f.Text? then T(CString(Blank(f))) else N(f.value)
  }

  /** The value a text gives to a field. */
  function ValueRead(text: string, f: Field): Value
    requires Sound(f)
  {
    if f.Text? then T(CString(TextRead(text, f.key, Blank(f))))
    else N(Clamped(f, NumberRead(text, f.key, f.value)))
  }

  /** The value of a field after loading a file: a missing or empty file leaves the default. */
  function Loaded(file: Option<string>, f: Field): Value
    requires Sound(f)
  {
    if file.None? || file.value == [] then Default(f) else ValueRead(CString(file.value), f)
  }

  lemma FieldsSound(i: nat)
    requires i < COUNT
    ensures Sound(FieldAt(i))
  {
    hide Word;
    BrokerWords();
    TopicWords();
    QosWords();
    TimingWords();
    DeviceWords();
    VideoWords();
    PoolWords();
  }

  lemma BrokerWords()
    ensures Word("mqtt_host") && Word("mqtt_port") && Word("mqtt_client_id")
    ensures Word("mqtt_username") && Word("mqtt_password")
  {
  }

  lemma TopicWords()
    ensures Word("mqtt_topic_up") && Word("mqtt_topic_down") && Word("mqtt_topic_resp")
  {
  }

  lemma QosWords()
    ensures Word("mqtt_qos_report") && Word("mqtt_qos_control") && Word("mqtt_qos_response")
  {
  }

  lemma TimingWords()
    ensures Word("mqtt_keepalive_sec") && Word("mqtt_reconnect_sec") && Word("report_interval_sec")
  {
  }

  lemma DeviceWords()
    ensures Word("led_dev") && Word("dht11_dev") && Word("video_dev")
  {
  }

  lemma VideoWords()
    ensures Word("video_width") && Word("video_height") && Word("video_fps")
  {
  }

  lemma PoolWords()
    ensures Word("pool_block_count") && Word("pool_block_size") && Word("media_default_file")
  {
  }

  /** Whatever the text, a number is in its range and fits in an `int`; without its key a field keeps its default. */
  lemma {:induction false} AlwaysInRange(file: Option<string>, i: nat)
    requires i < COUNT
    ensures Sound(FieldAt(i))
    ensures
      var f := FieldAt(i);
      && (f.Number? ==> InRange(f.range, Loaded(file, f).number) && -0x8000_0000 <= Loaded(file, f).number < 0x8000_0000)
      && (file.Some? && ValueOf(CString(file.value), f.key).None? ==> Loaded(file, f) == Default(f))
  {
    hide FieldAt, Word, Blank, CString, ValueOf, Strtol;
    FieldsSound(i);
  }

  /** The five fields with bounds: a number outside them gives the default, any other is kept. */
  lemma {:induction false} Bounds(text: string)
    ensures forall i :: 0 <= i < COUNT ==> Sound(FieldAt(i))
    ensures BoundedRead(text, FieldAt(8), "mqtt_qos_report", 0, 0, 2)
    ensures BoundedRead(text, FieldAt(9), "mqtt_qos_control", 1, 0, 2)
    ensures BoundedRead(text, FieldAt(10), "mqtt_qos_response", 1, 0, 2)
    ensures BoundedRead(text, FieldAt(20), "pool_block_count", 4, 1, 0x7FFF_FFFF)
    ensures BoundedRead(text, FieldAt(21), "pool_block_size", 1920 * 1080 * 2, 1, 0x7FFF_FFFF)
  {
    hide NumberRead, Sound;
    forall i | 0 <= i < COUNT
      ensures Sound(FieldAt(i))
    {
      FieldsSound(i);
    }
    NumberFits(text, "pool_block_count", 4);
    NumberFits(text, "pool_block_size", 1920 * 1080 * 2);
  }

  lemma NumberFits(text: string, key: string, value: int)
    requires -0x8000_0000 <= value < 0x8000_0000
    ensures -0x8000_0000 <= NumberRead(text, key, value) < 0x8000_0000
  {
    hide ValueOf, Strtol;
  }

  /** The field has this key and is read with this default between these bounds. */
  ghost predicate BoundedRead(text: string, f: Field, key: string, value: int, least: int, greatest: int)
    requires Sound(f)
  {
    var n := NumberRead(text, key, value);
    f.key == key && ValueRead(text, f) == N(if n < least || n > greatest then value else n)
  }

  /** No other number is touched. */
  lemma {:induction false} Unbounded(text: string, i: nat)
    requires i < COUNT && FieldAt(i).Number? && i != 8 && i != 9 && i != 10 && i != 20 && i != 21
    ensures Sound(FieldAt(i))
    ensures ValueRead(text, FieldAt(i)) == N(NumberRead(text, FieldAt(i).key, FieldAt(i).value))
  {
    hide NumberRead, Sound;
    FieldsSound(i);
  }

  // The canonical text.

  /** One line of the text: some white space, and the key it sets. */
  datatype Line = Line(gap: string, key: string)

  function ValueText(v: Value): (s: string)
    ensures s != [] && !IsSpace(s[0])
  {
    match v
    case T(text) => Quoted(text)
    case N(number) => Decimal(number)
  }

  /** The lines, each opened by a brace or a comma. */
  function PrintFrom(cfg: map<string, Value>, lines: seq<Line>, opener: string): (s: string)
    requires forall k :: 0 <= k < |lines| ==> lines[k].key in cfg
  {
    if lines == [] then "\n}\n"
    else
      opener + lines[0].gap + Quoted(lines[0].key) + ": " + ValueText(cfg[lines[0].key])
      + PrintFrom(cfg, lines[1..], ",")
  }

  function Print(cfg: map<string, Value>, lines: seq<Line>): string
    requires forall k :: 0 <= k < |lines| ==> lines[k].key in cfg
  {
    PrintFrom(cfg, lines, "{")
  }

  /** A line that can be printed: its string has no quote and no NUL, its number fits. */
  predicate Printable(cfg: map<string, Value>, line: Line) {
    && Word(line.key) && line.key in cfg
    && (forall i :: 0 <= i < |line.gap| ==> IsSpace(line.gap[i]))
    && match cfg[line.key]
       case T(text) => Plain(text) && NUL !in text
       case N(number) => -0x8000_0000 <= number < 0x8000_0000
  }

  ghost predicate AllPrintable(cfg: map<string, Value>, lines: seq<Line>) {
    && (forall k :: 0 <= k < |lines| ==> lines[k].key in cfg)
    && forall k :: 0 <= k < |lines| ==> Printable(cfg, lines[k])
  }

  /**
   The line whose value the scanner finds for a key: the first line that has the key, unless a string before it
   equals the key; behind such a string the scanner finds the value of the next line. `|lines|` stands for no line.
   */
  function Source(cfg: map<string, Value>, lines: seq<Line>, key: string): (i: nat)
    requires forall k :: 0 <= k < |lines| ==> lines[k].key in cfg
    ensures i <= |lines|
  {
    if lines == [] || lines[0].key == key then 0
    else if cfg[lines[0].key] == T(key) then 1
    else 1 + Source(cfg, lines[1..], key)
  }

  /** As much of a text as a buffer of this size holds. */
  function Cut(text: string, size: nat): string {
    if |text| < size then text else text[..if size == 0 then 0 else size - 1]
  }

  /** What a field gets from the value that is found for it: a value of the wrong kind leaves the default. */
  function Received(f: Field, v: Option<Value>): Value
    requires Sound(f)
  {
    match v
    case Some(T(text)) => if f.Text? then T(Cut(text, f.size)) else Default(f)
    case Some(N(number)) => if f.Number? then N(Clamped(f, number)) else Default(f)
    case None => Default(f)
  }

  function Found(cfg: map<string, Value>, lines: seq<Line>, key: string): Option<Value>
    requires forall k :: 0 <= k < |lines| ==> lines[k].key in cfg
  {
    var i := Source(cfg, lines, key);
    if i < |lines| then Some(cfg[lines[i].key]) else None
  }

  /** A value that loading does not replace by the default. */
  predicate Sane(f: Field, v: Value) {
    f.Number? && v.N? ==> InRange(f.range, v.number)
  }

  /** The value of a field that has a value in `cfg` of the right kind, which fits into the field. */
  predicate Fits(cfg: map<string, Value>, f: Field) {
    && f.key in cfg
    && match cfg[f.key]
       case T(text) => f.Text? && |text| < f.size
       case N(_) => f.Number?
  }

  /** The end of a value: nothing that could belong to a number. */
  predicate Ends(t: string) {
    t != [] && (t[0] == ',' || t[0] == '\n')
  }

  lemma PrintEnds(cfg: map<string, Value>, lines: seq<Line>)
    requires forall k :: 0 <= k < |lines| ==> lines[k].key in cfg
    ensures Ends(PrintFrom(cfg, lines, ","))
  {
  }

  /** A line that does not have the key is passed up to its value. */
  lemma {:induction false} PassKey(line: Line, opener: string, t: string, key: string)
    requires Word(line.key) && Plain(opener + line.gap)
    requires Word(key) && key != line.key
    ensures AfterFirst((opener + line.gap) + (Quoted(line.key) + (": " + t)), Quoted(key)) == AfterFirst(": " + t, Quoted(key))
  {
    hide AfterFirst;
    SkipPlain(opener + line.gap, Quoted(line.key) + (": " + t), key);
    PassQuoted(line.key, ": " + t, key);
    PassOutside(": " + t, key);
  }

  /** A value that is not the key is passed. */
  lemma {:induction false} PassValue(v: Value, t: string, key: string)
    requires v.T? ==> Plain(v.text)
    requires Word(key) && v != T(key) && Ends(t)
    ensures AfterFirst(": " + (ValueText(v) + t), Quoted(key)) == AfterFirst(t, Quoted(key))
  {
    hide AfterFirst, Decimal;
    match v {
      case T(text) =>
        SkipPlain(": ", Quoted(text) + t, key);
        PassQuoted(text, t, key);
        PassOutside(t, key);
      case N(number) =>
        DecimalPlain(number);
        assert ": " + (ValueText(v) + t) == (": " + Decimal(number)) + t;
        SkipPlain(": " + Decimal(number), t, key);
    }
  }

  lemma {:induction false} DecimalPlain(v: int)
    ensures Plain(Decimal(v)) && NUL !in Decimal(v)
  {
    DigitsPlain(if v < 0 then -v else v);
  }

  lemma {:induction false} DigitsPlain(n: nat)
    ensures Plain(Digits(n)) && NUL !in Digits(n)
    decreases n
  {
    if n >= 10 {
      DigitsPlain(n / 10);
    }
  }

  lemma {:induction false} PrintNext(cfg: map<string, Value>, lines: seq<Line>, opener: string) returns (more: string)
    requires AllPrintable(cfg, lines) && lines != [] && Plain(opener)
    ensures
      var line := lines[0];
      && PrintFrom(cfg, lines, opener)
         == (opener + line.gap) + (Quoted(line.key) + (": " + (ValueText(cfg[line.key]) + more)))
      && more == PrintFrom(cfg, lines[1..], ",") && Ends(more)
      && Plain(opener + line.gap)
      && AllPrintable(cfg, lines[1..])
  {
    hide ValueText;
    more := PrintFrom(cfg, lines[1..], ",");
    PrintEnds(cfg, lines[1..]);
    assert Printable(cfg, lines[0]);
  }

  /** The scanner finds the value of the source line, in the text of any configuration. */
  lemma {:induction false} Located(cfg: map<string, Value>, lines: seq<Line>, opener: string, key: string)
    returns (t: string)
    requires AllPrintable(cfg, lines) && Plain(opener) && Word(key)
    ensures
      var i, v := Source(cfg, lines, key), ValueOf(PrintFrom(cfg, lines, opener), key);
      if i < |lines| then v == Some(ValueText(cfg[lines[i].key]) + t) && Ends(t) else v == None
    decreases |lines|
  {
    hide AfterFirst, ValueText, PrintFrom, Ends, ValueOf, Word;
    if lines == [] {
      NoKey(cfg, opener, key);
      t := [];
    } else {
      var line := lines[0];
      var v := cfg[line.key];
      assert Printable(cfg, line);
      var more := PrintNext(cfg, lines, opener);
      if line.key == key {
        t := more;
        SkipPlain(opener + line.gap, Quoted(key) + (": " + (ValueText(v) + t)), key);
        FoundHere(": " + (ValueText(v) + t), key);
        ValueBehindColon(PrintFrom(cfg, lines, opener), key, ValueText(v) + t);
      } else {
        PassKey(line, opener, ValueText(v) + more, key);
        if v == T(key) {
          t := NextLine(cfg, lines[1..], PrintFrom(cfg, lines, opener), key);
        } else {
          t := Located(cfg, lines[1..], ",", key);
          PassValue(v, more, key);
          SameValue(PrintFrom(cfg, lines, opener), more, key);
        }
      }
    }
  }

  lemma SameValue(a: string, b: string, key: string)
    requires AfterFirst(a, Quoted(key)) == AfterFirst(b, Quoted(key))
    ensures ValueOf(a, key) == ValueOf(b, key)
  {
  }

  lemma NoKey(cfg: map<string, Value>, opener: string, key: string)
    ensures ValueOf(PrintFrom(cfg, [], opener), key) == None
  {
    SkipPlain("\n}\n", "", key);
    assert "\n}\n" + "" == PrintFrom(cfg, [], opener);
    assert AfterFirst("", Quoted(key)) == None;
  }

  /** A string equal to the key is taken for it, and the value of the next line for its value. */
  lemma {:induction false} NextLine(cfg: map<string, Value>, rest: seq<Line>, text: string, key: string) returns (t: string)
    requires AllPrintable(cfg, rest) && Word(key)
    requires AfterFirst(text, Quoted(key)) == AfterFirst(": " + (ValueText(T(key)) + PrintFrom(cfg, rest, ",")), Quoted(key))
    ensures
      if rest != [] then ValueOf(text, key) == Some(ValueText(cfg[rest[0].key]) + t) && Ends(t)
      else ValueOf(text, key) == None
  {
    hide AfterFirst, PrintFrom, Decimal;
    var more := PrintFrom(cfg, rest, ",");
    SkipPlain(": ", Quoted(key) + more, key);
    FoundHere(more, key);
    if rest == [] {
      NoColon(cfg);
      t := [];
    } else {
      var line := rest[0];
      t := PrintNext(cfg, rest, ",");
      var value := ValueText(cfg[line.key]) + t;
      assert Printable(cfg, line);
      var before := "," + line.gap + Quoted(line.key);
      assert more == before + ":" + (" " + value);
      AfterFirstChar(before, " " + value, ':');
      SkipBlank(value);
    }
  }

  lemma NoColon(cfg: map<string, Value>)
    ensures AfterFirst(PrintFrom(cfg, [], ","), ":") == None
  {
    AbsentChar(PrintFrom(cfg, [], ","), ':');
  }

  /** There is no NUL in the text, so the scanner sees all of it. */
  lemma {:induction false} NoNul(cfg: map<string, Value>, lines: seq<Line>, opener: string)
    requires AllPrintable(cfg, lines) && NUL !in opener
    ensures NUL !in PrintFrom(cfg, lines, opener)
    decreases |lines|
  {
    hide ValueText;
    if lines != [] {
      var line := lines[0];
      assert Printable(cfg, line);
      NoNul(cfg, lines[1..], ",");
      NoNulValue(cfg[line.key]);
      assert NUL !in opener + line.gap && NUL !in Quoted(line.key) && NUL !in ": ";
    }
  }

  lemma NoNulValue(v: Value)
    requires v.T? ==> NUL !in v.text
    ensures NUL !in ValueText(v)
  {
    hide Decimal;
    if v.N? {
      DecimalPlain(v.number);
    }
  }

  /** Loading a printed configuration gives every field what it receives from its source line. */
  lemma {:induction false} LoadedPrint(cfg: map<string, Value>, lines: seq<Line>, i: nat)
    requires AllPrintable(cfg, lines) && i < COUNT
    ensures Sound(FieldAt(i))
    ensures Loaded(Some(Print(cfg, lines)), FieldAt(i)) == Received(FieldAt(i), Found(cfg, lines, FieldAt(i).key))
  {
    hide AfterFirst, ValueOf, FieldAt, Word, CString, Decimal, PrintFrom, Int32, Strtol, TextRead, Blank;
    var f, text := FieldAt(i), Print(cfg, lines);
    FieldsSound(i);
    var t := Located(cfg, lines, "{", f.key);
    NoNul(cfg, lines, "{");
    WholeText(text);
    SomeText(cfg, lines);
    var n := Source(cfg, lines, f.key);
    if n < |lines| {
      assert Printable(cfg, lines[n]);
      match cfg[lines[n].key] {
        case T(s) =>
          if f.Number? {
            NotANumber(s, t);
          } else if |s| < f.size {
            StringReadBack(text, f.key, s, t, Blank(f));
          } else {
            BlankEnds(f);
            StringCut(text, f.key, s, t, Blank(f));
          }
        case N(number) =>
          if f.Number? {
            NumberReadBack(text, f, number, t);
          } else {
            NotAString(number, t);
          }
      }
    }
    MissingKeeps(text, f);
  }

  lemma BlankEnds(f: Field)
    requires f.Text? && |f.initial| < f.size
    ensures Blank(f)[f.size - 1] == NUL
  {
  }

  lemma SomeText(cfg: map<string, Value>, lines: seq<Line>)
    requires AllPrintable(cfg, lines)
    ensures Print(cfg, lines) != []
  {
  }

  lemma NotANumber(s: string, t: string)
    ensures Strtol(Quoted(s) + t) == None
  {
  }

  lemma NotAString(v: int, t: string)
    ensures !IsText(Some(Decimal(v) + t))
  {
  }

  /** A value that cannot be read, or none, leaves the default. */
  lemma MissingKeeps(text: string, f: Field)
    requires Sound(f)
    ensures f.Text? && !IsText(ValueOf(text, f.key)) ==> ValueRead(text, f) == Default(f)
    ensures
      f.Number? && (ValueOf(text, f.key).None? || Strtol(ValueOf(text, f.key).value).None?) ==>
        ValueRead(text, f) == Default(f)
  {
  }

  /** The key is found on its own line exactly when no string but the one just before it equals the key. */
  lemma {:induction false} OwnLine(cfg: map<string, Value>, lines: seq<Line>, key: string, n: nat)
    requires forall k :: 0 <= k < |lines| ==> lines[k].key in cfg
    requires n < |lines| && lines[n].key == key && forall k :: 0 <= k < n ==> lines[k].key != key
    ensures Source(cfg, lines, key) == n <==> forall k :: 0 <= k < n - 1 ==> cfg[lines[k].key] != T(key)
    decreases |lines|
  {
    if n > 0 {
      OwnLine(cfg, lines[1..], key, n - 1);
      if cfg[lines[0].key] != T(key) {
        assert forall k :: 0 < k < n - 1 ==> lines[k] == lines[1..][k - 1];
        assert forall k :: 0 <= k < n - 2 ==> lines[1..][k] == lines[k + 1];
      }
    }
  }

  lemma {:induction false} WholeText(text: string)
    requires NUL !in text
    ensures CString(text) == text
    decreases |text|
  {
    if text != [] {
      WholeText(text[1..]);
    }
  }

  /** A printed number of any size comes back if and only if an `int` holds it. */
  lemma {:induction false} LargeNumber(text: string, key: string, v: int, t: string, out: int)
    requires Ends(t) && ValueOf(text, key) == Some(Decimal(v) + t)
    ensures NumberRead(text, key, out) == v <==> -0x8000_0000 <= v < 0x8000_0000
    ensures v > 0x7FFF_FFFF_FFFF_FFFF ==> NumberRead(text, key, out) == -1
    ensures v < -0x8000_0000_0000_0000 ==> NumberRead(text, key, out) == 0
  {
    hide ValueOf, Strtol, Decimal;
    DecimalReadBack(v, t);
  }

  lemma {:induction false} NumberReadBack(text: string, f: Field, v: int, t: string)
    requires f.Number? && -0x8000_0000 <= v < 0x8000_0000 && Ends(t)
    requires ValueOf(text, f.key) == Some(Decimal(v) + t)
    ensures NumberRead(text, f.key, f.value) == v
  {
    hide ValueOf, Strtol, Decimal;
    DecimalReadBack(v, t);
  }

  /** The key of every field is found on a line of its own. */
  ghost predicate Complete(cfg: map<string, Value>, lines: seq<Line>)
    requires forall k :: 0 <= k < |lines| ==> lines[k].key in cfg
  {
    forall i: nat :: i < COUNT ==> Own(cfg, lines, FieldAt(i).key)
  }

  predicate Own(cfg: map<string, Value>, lines: seq<Line>, key: string)
    requires forall k :: 0 <= k < |lines| ==> lines[k].key in cfg
  {
    var n := Source(cfg, lines, key);
    n < |lines| && lines[n].key == key
  }

  /** Every field holds after loading what the configuration was printed with. */
  ghost predicate ComesBack(cfg: map<string, Value>, lines: seq<Line>)
    requires forall k :: 0 <= k < |lines| ==> lines[k].key in cfg
    requires forall i: nat :: i < COUNT ==> FieldAt(i).key in cfg && Sound(FieldAt(i))
  {
    forall i: nat :: i < COUNT ==> Loaded(Some(Print(cfg, lines)), FieldAt(i)) == cfg[FieldAt(i).key]
  }

  /**
   A printed configuration, in any order and with any white space before the keys, comes back if and only if each
   field receives its value from the line that is found for it. When every key is found on a line of its own, that
   is the case if and only if every value is of its field's kind and fits, and every number is in its range.
   */
  lemma {:induction false} ConfigRoundTrip(cfg: map<string, Value>, lines: seq<Line>)
    requires AllPrintable(cfg, lines)
    requires forall i: nat :: i < COUNT ==> FieldAt(i).key in cfg
    ensures forall i: nat :: i < COUNT ==> Sound(FieldAt(i))
    ensures
      ComesBack(cfg, lines)
      <==> forall i: nat :: i < COUNT ==> Received(FieldAt(i), Found(cfg, lines, FieldAt(i).key)) == cfg[FieldAt(i).key]
    ensures
      Complete(cfg, lines) ==>
        (ComesBack(cfg, lines)
         <==> forall i: nat :: i < COUNT ==> Fits(cfg, FieldAt(i)) && Sane(FieldAt(i), cfg[FieldAt(i).key]))
  {
    hide FieldAt, PrintFrom, Loaded, Printable, Source, Sound, Received, Fits, Sane;
    forall i: nat | i < COUNT
      ensures Sound(FieldAt(i))
      ensures
        var f := FieldAt(i);
        && Loaded(Some(Print(cfg, lines)), f) == Received(f, Found(cfg, lines, f.key))
        && (Own(cfg, lines, f.key) ==>
              (Received(f, Found(cfg, lines, f.key)) == cfg[f.key] <==> Fits(cfg, f) && Sane(f, cfg[f.key])))
    {
      FieldsSound(i);
      LoadedPrint(cfg, lines, i);
      ReceivedSame(cfg, FieldAt(i));
    }
  }

  lemma ReceivedSame(cfg: map<string, Value>, f: Field)
    requires Sound(f) && f.key in cfg
    ensures Received(f, Some(cfg[f.key])) == cfg[f.key] <==> Fits(cfg, f) && Sane(f, cfg[f.key])
  {
  }

  /** A string that equals a text field's key, with a number behind it, hides the field. */
  lemma {:induction false} Hidden(cfg: map<string, Value>, lines: seq<Line>, i: nat)
    requires AllPrintable(cfg, lines) && |lines| >= 2 && i < COUNT && FieldAt(i).Text?
    requires lines[0].key != FieldAt(i).key && cfg[lines[0].key] == T(FieldAt(i).key) && cfg[lines[1].key].N?
    ensures Sound(FieldAt(i)) && Loaded(Some(Print(cfg, lines)), FieldAt(i)) == Default(FieldAt(i))
  {
    hide FieldAt, Loaded, Default, Printable, Sound;
    LoadedPrint(cfg, lines, i);
  }

  /** Such a configuration: the topic is empty, but its field keeps the default, which is not. */
  lemma {:induction false} TopicLost() returns (cfg: map<string, Value>, lines: seq<Line>)
    ensures AllPrintable(cfg, lines) && Sound(FieldAt(5))
    ensures FieldAt(5).key in cfg && Fits(cfg, FieldAt(5)) && Line("", FieldAt(5).key) in lines
    ensures Loaded(Some(Print(cfg, lines)), FieldAt(5)) != cfg[FieldAt(5).key]
  {
    hide Loaded, Print, Word, Sound;
    DeviceWords();
    VideoWords();
    TopicWords();
    var led, fps, topic := "led_dev", "video_fps", "mqtt_topic_up";
    assert |led| == 7 && |fps| == 9 && |topic| == 13;
    PlainTopic();
    cfg := map[led := T(topic), fps := N(30), topic := T("")];
    var first, second, third := Line("", led), Line("", fps), Line("", topic);
    lines := [first, second, third];
    assert Printable(cfg, first) && Printable(cfg, second) && Printable(cfg, third);
    Hidden(cfg, lines, 5);
    TopicDefault();
  }

  lemma PlainTopic()
    ensures Plain("mqtt_topic_up") && NUL !in "mqtt_topic_up"
  {
  }

  lemma TopicDefault()
    ensures Sound(FieldAt(5)) && FieldAt(5).key == "mqtt_topic_up" && Default(FieldAt(5)) != T("")
  {
    hide Word;
    TopicWords();
    assert Blank(FieldAt(5))[0] == '/';
  }

  // The configuration record.

  class Config {
    const buffers: seq<array<char>>
    var numbers: seq<int>

    /** Buffers of the right sizes, no two of them the same. */
    ghost predicate Valid()
      reads this
    {
      && |buffers| == |numbers| == COUNT
      && (forall i: nat :: i < COUNT && FieldAt(i).Text? ==> buffers[i].Length == FieldAt(i).size)
      && forall i: nat, j: nat :: i < j < COUNT ==> buffers[i] != buffers[j]
    }

    /** The value of a field. */
    ghost function Content(i: nat): Value
      requires Valid() && i < COUNT
      reads this, buffers[i]
    {
      if FieldAt(i).Text? then T(CString(buffers[i][..])) else N(numbers[i])
    }

    constructor ()
      ensures Valid() && fresh(buffers)
    {
      var bs: seq<array<char>> := [];
      while |bs| < COUNT
        invariant |bs| <= COUNT && fresh(bs)
        invariant forall i: nat :: i < |bs| && FieldAt(i).Text? ==> bs[i].Length == FieldAt(i).size
        invariant forall i: nat, j: nat :: i < j < |bs| ==> bs[i] != bs[j]
      {
        var f := FieldAt(|bs|);
        var b := new char[if f.Text? then f.size else 0](_ => NUL);
        bs := bs + [b];
      }
      buffers := bs;
      numbers := seq(COUNT, _ => 0);
    }

    /** Zeroes one buffer and copies the default into it. */
    method SetText(i: nat)
      requires Valid() && i < COUNT && FieldAt(i).Text? && Sound(FieldAt(i))
      modifies buffers[i]
      ensures IsBlank(FieldAt(i), buffers[i][..])
    {
      var b, f := buffers[i], FieldAt(i);
      forall k | 0 <= k < b.Length {
        b[k] := if k < |f.initial| then f.initial[k] else NUL;
      }
    }

    method SetDefaults()
      requires Valid()
      modifies this, buffers
      ensures Valid()
      ensures forall i: nat :: i < COUNT ==> Sound(FieldAt(i)) && Content(i) == Default(FieldAt(i))
      ensures forall i: nat :: i < COUNT && FieldAt(i).Number? ==> numbers[i] == FieldAt(i).value
      ensures forall i: nat :: i < COUNT && FieldAt(i).Text? ==> IsBlank(FieldAt(i), buffers[i][..])
    {
      hide FieldAt, Blank, Sound, CString;
      var n := 0;
      while n < COUNT
        invariant n <= COUNT && Valid()
        invariant forall i: nat :: i < n ==> Sound(FieldAt(i))
        invariant forall i: nat :: i < n && FieldAt(i).Text? ==> IsBlank(FieldAt(i), buffers[i][..])
        invariant forall i: nat :: i < n && FieldAt(i).Number? ==> numbers[i] == FieldAt(i).value
      {
        FieldsSound(n);
        if FieldAt(n).Text? {
          SetText(n);
        } else {
          numbers := numbers[n := FieldAt(n).value];
        }
        n := n + 1;
      }
    }

    /**
     Loads a file over the defaults. A missing file is not an error, an empty one is; neither changes a default.
     */
    method Load(file: Option<string>) returns (ok: bool)
      requires Valid()
      modifies this, buffers
      ensures Valid()
      ensures ok <==> file != Some("")
      ensures forall i: nat :: i < COUNT ==> Sound(FieldAt(i)) && Content(i) == Loaded(file, FieldAt(i))
    {
      hide FieldAt, Blank, Sound, CString, TextRead, NumberRead;
      SetDefaults();
      if file.None? {
        return true;
      }
      if file.value == [] {
        return false;
      }
      var text := CString(file.value);
      var n := 0;
      while n < COUNT
        invariant n <= COUNT && Valid()
        invariant forall i: nat :: i < COUNT ==> Sound(FieldAt(i))
        invariant forall i: nat :: i < n ==> Content(i) == ValueRead(text, FieldAt(i))
        invariant forall i: nat :: n <= i < COUNT && FieldAt(i).Text? ==> IsBlank(FieldAt(i), buffers[i][..])
        invariant forall i: nat :: n <= i < COUNT && FieldAt(i).Number? ==> numbers[i] == FieldAt(i).value
      {
        var f := FieldAt(n);
        if f.Text? {
          assert IsBlank(f, buffers[n][..]);
          var _ := GetString(text, f.key, buffers[n]);
        } else {
          var v := GetInt(text, f.key, numbers[n]);
          numbers := numbers[n := Clamped(f, v)];
        }
        n := n + 1;
      }
      ok := true;
    }
  }
}
