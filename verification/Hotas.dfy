/** A joystick button stored as text among the keyboard hotkeys. */
module Hotas {
  import opened Options
  import opened DecimalText

  const PREFIX := "joy:"

  datatype JoyBinding = JoyBinding(guid: string, ordinal: int, button: int, name: string) {
    function ToText(): string {
      PREFIX + Join([guid, IntText(ordinal), IntText(button), name], ':')
    }
  }

  /** None is a keyboard key, or a joystick text that names no button. */
  function Parse(hotkey: string): Option<JoyBinding> {
    if !(PREFIX <= hotkey) then
      None
    else
      var parts := Split(hotkey[|PREFIX|..], ':', Some(3));
      if |parts| < 3 then
        None
      else
        var ordinal, button := ParseInt(parts[1]), ParseInt(parts[2]);
        if ordinal.None? || button.None? then
          None
        else
          Some(JoyBinding(parts[0], ordinal.value, button.value, if |parts| > 3 then parts[3] else ""))
  }

  lemma PartsOfText(b: JoyBinding)
    requires ':' !in b.guid
    ensures Split(b.ToText()[|PREFIX|..], ':', Some(3)) == [b.guid, IntText(b.ordinal), IntText(b.button), b.name]
  {
    var parts := [b.guid, IntText(b.ordinal), IntText(b.button), b.name];
    assert b.ToText()[|PREFIX|..] == Join(parts, ':');
    SplitJoin(parts, ':', Some(3));
  }

  lemma ParsedGuidHasNoColon(hotkey: string)
    requires Parse(hotkey).Some?
    ensures ':' !in Parse(hotkey).value.guid
  {
  }

  /** Parsing the stored text gives the binding back exactly when its guid has no colon; the name may have any. */
  lemma ParseToText(b: JoyBinding)
    ensures Parse(b.ToText()) == Some(b) <==> ':' !in b.guid
  {
    if ':' !in b.guid {
      PartsOfText(b);
      ParseIntText(b.ordinal);
      ParseIntText(b.button);
      assert PREFIX <= b.ToText();
    } else if Parse(b.ToText()) == Some(b) {
      ParsedGuidHasNoColon(b.ToText());
    }
  }

  /** A guid of a:b comes back as a guid of a, if at all. */
  lemma ColonInGuidIsLost(ordinal: int, button: int, name: string)
    ensures Parse(JoyBinding("a:b", ordinal, button, name).ToText()) != Some(JoyBinding("a:b", ordinal, button, name))
  {
    var b := JoyBinding("a:b", ordinal, button, name);
    ParseToText(b);
    assert b.guid[1] == ':';
  }

  /** Whatever text parsed, printing the binding gives a text that parses to the same binding. */
  lemma ReprintParses(hotkey: string)
    requires Parse(hotkey).Some?
    ensures Parse(Parse(hotkey).value.ToText()) == Parse(hotkey)
  {
    ParsedGuidHasNoColon(hotkey);
    ParseToText(Parse(hotkey).value);
  }

  // ----- Exactly which texts name a button, and which -----

  /** The text has the binding's guid, numbers and name in their places; a text without a name may end after the button. */
  predicate Names(hotkey: string, b: JoyBinding, ordinal: string, button: string) {
    && ':' !in b.guid && ':' !in ordinal && ':' !in button
    && ParseInt(ordinal) == Some(b.ordinal) && ParseInt(button) == Some(b.button)
    && (hotkey == "joy:" + (b.guid + [':'] + (ordinal + [':'] + (button + [':'] + b.name)))
        || (b.name == "" && hotkey == "joy:" + (b.guid + [':'] + (ordinal + [':'] + button))))
  }

  lemma ParseIff(hotkey: string, b: JoyBinding)
    ensures Parse(hotkey) == Some(b) <==> exists ordinal, button :: Names(hotkey, b, ordinal, button)
  {
    if Parse(hotkey) == Some(b) {
      var rest := hotkey[|PREFIX|..];
      var parts := Split(rest, ':', Some(3));
      JoinSplit(rest, ':', Some(3));
      assert hotkey == PREFIX + rest;
      JoinOf(parts);
      assert Names(hotkey, b, parts[1], parts[2]);
    }
    if exists ordinal, button :: Names(hotkey, b, ordinal, button) {
      var ordinal, button :| Names(hotkey, b, ordinal, button);
      NamedParses(hotkey, b, ordinal, button);
    }
  }

  lemma JoinOf(parts: seq<string>)
    requires 3 <= |parts| <= 4
    ensures |parts| == 3 ==> Join(parts, ':') == parts[0] + [':'] + (parts[1] + [':'] + parts[2])
    ensures |parts| == 4 ==> Join(parts, ':') == parts[0] + [':'] + (parts[1] + [':'] + (parts[2] + [':'] + parts[3]))
  {
    assert parts[1..][1..] == parts[2..];
    assert Join(parts[1..], ':') == parts[1] + [':'] + Join(parts[2..], ':');
    if |parts| == 4 {
      assert parts[2..][1..] == [parts[3]];
    }
  }

  lemma NamedParses(hotkey: string, b: JoyBinding, ordinal: string, button: string)
    requires Names(hotkey, b, ordinal, button)
    ensures Parse(hotkey) == Some(b)
  {
    var rest := hotkey[|PREFIX|..];
    assert PREFIX <= hotkey;
    var three, four := [b.guid, ordinal, button], [b.guid, ordinal, button, b.name];
    JoinOf(three);
    JoinOf(four);
    if rest == Join(four, ':') {
      SplitJoin(four, ':', Some(3));
    } else {
      assert rest == Join(three, ':');
      SplitJoin(three, ':', None);
      SplitsToSpare(rest, ':', 3);
    }
  }

  /** With fewer separators than splits, the limit makes no difference. */
  lemma {:induction false} SplitsToSpare(s: string, c: char, splits: nat)
    requires |Split(s, c, None)| <= splits + 1
    ensures Split(s, c, Some(splits)) == Split(s, c, None)
    decreases |s|
  {
    var i := IndexOf(s, c);
    if i < |s| {
      var rest := Split(s[i + 1..], c, None);
      assert |rest| >= 1;
      SplitsToSpare(s[i + 1..], c, splits - 1);
    }
  }

  /** What is stored. */
  lemma TextOf(b: JoyBinding)
    ensures b.ToText() == "joy:" + (b.guid + [':'] + (IntText(b.ordinal) + [':'] + (IntText(b.button) + [':'] + b.name)))
  {
    JoinOf([b.guid, IntText(b.ordinal), IntText(b.button), b.name]);
  }
}
