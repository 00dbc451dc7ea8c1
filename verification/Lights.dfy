/**
 The LED arbitration of liblights/lights.c: battery and notification states share three LEDs, and each blink function
 caches the class of state it last wrote.
 */
module Lights {
  import opened Common

  const LIGHT_FLASH_TIMED := 1

  /** light_state_t: color is 0xAARRGGBB. */
  datatype LightState = LightState(color: bv32, flashMode: int, flashOnMS: int, flashOffMS: int)

  const BLANK := LightState(0, 0, 0, 0)

  // The values of preStatus.
  const OFF := 0
  const BLINK := 1
  const NO_BLINK := 2

  const RED := 0
  const GREEN := 1
  const BLUE := 2

  /** What the files of one LED were last told: dark, the timer trigger with its delays, or full brightness. */
  datatype Led = Dark | Timer(delayOn: int, delayOff: int) | Full

  function ClassOf(led: Led): nat {
    match led
    case Dark => OFF
    case Timer(delayOn, delayOff) => BLINK
    case Full => NO_BLINK
  }

  /** preStatus and device state of the three LEDs, and the two global light states. */
  datatype Fields = Fields(pre: seq<nat>, leds: seq<Led>, battery: LightState, notification: LightState)

  type State = s: Fields | |s.pre| == 3 && |s.leds| == 3
    witness Fields([OFF, OFF, OFF], [Dark, Dark, Dark], BLANK, BLANK)

  predicate IsLit(s: LightState) {
    s.color & 0x00ffffff != 0
  }

  function StatusFor(level: bv32, onMS: int, offMS: int): nat {
    if level == 0 then OFF else if onMS != 0 && offMS != 0 then BLINK else NO_BLINK
  }

  function LedFor(status: nat, onMS: int, offMS: int): Led {
    if status == OFF then Dark else if status == BLINK then Timer(onMS, offMS) else Full
  }

  /** blink_red, blink_green and blink_blue: nothing is written when the class stays the same. */
  function Blink(s: State, i: nat, level: bv32, onMS: int, offMS: int): (s': State)
    requires i < 3
    ensures s'.battery == s.battery && s'.notification == s.notification
  {
    var now := StatusFor(level, onMS, offMS);
    if s.pre[i] == now then s
    else s.(pre := s.pre[i := now], leds := s.leds[i := LedFor(now, onMS, offMS)])
  }

  function OnMS(l: LightState): int {
    if l.flashMode == LIGHT_FLASH_TIMED then l.flashOnMS else 0
  }

  function OffMS(l: LightState): int {
    if l.flashMode == LIGHT_FLASH_TIMED then l.flashOffMS else 0
  }

  function AlphaOf(color: bv32): bv32 { (color >> 24) & 0xFF }

  function RedOf(color: bv32): bv32 { (color >> 16) & 0xFF }

  function GreenOf(color: bv32): bv32 { (color >> 8) & 0xFF }

  function BlueOf(color: bv32): bv32 { color & 0xFF }

  /** A color component; all are zero when alpha is. */
  function Component(l: LightState, i: nat): bv32
    requires i < 3
  {
    if AlphaOf(l.color) == 0 then 0
    else if i == RED then RedOf(l.color)
    else if i == GREEN then GreenOf(l.color)
    else BlueOf(l.color)
  }

  /** The part of set_speaker_light_locked after the colors are known: red goes before green, and green before blue. */
  function ShowColor(s: State, red: bv32, green: bv32, blue: bv32, onMS: int, offMS: int): (s': State)
    ensures s'.battery == s.battery && s'.notification == s.notification
  {
    if red != 0 then Blink(Blink(Blink(s, GREEN, 0, 0, 0), BLUE, 0, 0, 0), RED, red, onMS, offMS)
    else if green != 0 then Blink(Blink(Blink(s, RED, 0, 0, 0), BLUE, 0, 0, 0), GREEN, green, onMS, offMS)
    else if blue != 0 then Blink(Blink(Blink(s, RED, 0, 0, 0), GREEN, 0, 0, 0), BLUE, blue, onMS, offMS)
    else Blink(Blink(Blink(s, RED, 0, 0, 0), GREEN, 0, 0, 0), BLUE, 0, 0, 0)
  }

  function SetSpeaker(s: State, l: LightState): (s': State)
    ensures s'.battery == s.battery && s'.notification == s.notification
  {
    ShowColor(s, Component(l, RED), Component(l, GREEN), Component(l, BLUE), OnMS(l), OffMS(l))
  }

  function HandleSpeakerBattery(s: State): (s': State)
    ensures s'.battery == s.battery && s'.notification == s.notification
  {
    if IsLit(s.battery) then SetSpeaker(s, s.battery)
    else SetSpeaker(SetSpeaker(s, s.battery), s.notification)
  }

  function SetBattery(s: State, l: LightState, trackball: bool): (s': State)
    ensures s'.battery == l && s'.notification == s.notification
  {
    var s1 := s.(battery := l);
    HandleSpeakerBattery(if trackball then SetSpeaker(s1, l) else s1)
  }

  function SetNotification(s: State, l: LightState): (s': State)
    ensures s'.battery == s.battery && s'.notification == l
  {
    HandleSpeakerBattery(s.(notification := l))
  }

  // ---------- what the LEDs should show ----------

  /** The LED that a light state uses, if any. */
  function Chosen(l: LightState): Option<nat> {
    if Component(l, RED) != 0 then Some(RED)
    else if Component(l, GREEN) != 0 then Some(GREEN)
    else if Component(l, BLUE) != 0 then Some(BLUE)
    else None
  }

  // The same from the bits of the color and the fields of the light state: 0 is the red LED, 1 the green, 2 the blue.

  function LedOf(l: LightState): Option<nat> {
    if l.color & 0xFF000000 == 0 then None
    else if l.color & 0x00FF0000 != 0 then Some(0)
    else if l.color & 0x0000FF00 != 0 then Some(1)
    else if l.color & 0x000000FF != 0 then Some(2)
    else None
  }

  predicate HasColor(l: LightState) {
    l.color & 0x00FFFFFF != 0
  }

  lemma HasColorIsLit(l: LightState)
    ensures HasColor(l) <==> IsLit(l)
  {
  }

  predicate Blinks(l: LightState) {
    l.flashMode == 1 && l.flashOnMS != 0 && l.flashOffMS != 0
  }

  /** The LED of the color blinks or is on, and no other is. */
  ghost predicate Displays(leds: seq<Led>, l: LightState) {
    |leds| == 3 &&
    forall i :: 0 <= i < 3 ==>
      && (leds[i] == Dark <==> LedOf(l) != Some(i))
      && (leds[i].Timer? <==> LedOf(l) == Some(i) && Blinks(l))
  }

  lemma AlphaMask(c: bv32)
    ensures AlphaOf(c) == 0 <==> c & 0xFF000000 == 0
  {
  }

  lemma RedMask(c: bv32)
    ensures RedOf(c) == 0 <==> c & 0x00FF0000 == 0
  {
  }

  lemma GreenMask(c: bv32)
    ensures GreenOf(c) == 0 <==> c & 0x0000FF00 == 0
  {
  }

  lemma ComponentIsMask(l: LightState)
    ensures Component(l, RED) != 0 <==> l.color & 0xFF000000 != 0 && l.color & 0x00FF0000 != 0
    ensures Component(l, GREEN) != 0 <==> l.color & 0xFF000000 != 0 && l.color & 0x0000FF00 != 0
    ensures Component(l, BLUE) != 0 <==> l.color & 0xFF000000 != 0 && l.color & 0x000000FF != 0
  {
    hide AlphaOf, RedOf, GreenOf;
    AlphaMask(l.color);
    RedMask(l.color);
    GreenMask(l.color);
  }

  lemma ChosenIsLedOf(l: LightState)
    ensures Chosen(l) == LedOf(l)
  {
    hide Component;
    ComponentIsMask(l);
  }

  lemma ShowsDisplays(s: State, l: LightState)
    requires Shows(s, l)
    ensures Displays(s.leds, l)
  {
    hide Chosen, LedOf;
    ChosenIsLedOf(l);
    forall i | 0 <= i < 3
      ensures s.leds[i] == Dark <==> LedOf(l) != Some(i)
      ensures s.leds[i].Timer? <==> LedOf(l) == Some(i) && Blinks(l)
    {
      assert ClassOf(s.leds[i]) == ClassFor(l, i);
    }
  }

  /** The class of LED i for one light state alone. */
  function ClassFor(l: LightState, i: nat): nat {
    if Chosen(l) != Some(i) then OFF else if OnMS(l) != 0 && OffMS(l) != 0 then BLINK else NO_BLINK
  }

  /** The light state that decides: the battery's as soon as it has any color, the notification's otherwise. */
  function Deciding(battery: LightState, notification: LightState): LightState {
    if IsLit(battery) then battery else notification
  }

  /** The cache tells what the device was last told. */
  predicate CacheTrue(s: State)
  {
    forall i :: 0 <= i < 3 ==> s.pre[i] == ClassOf(s.leds[i])
  }

  /** Every LED shows the class for one light state. */
  predicate Shows(s: State, l: LightState)
  {
    forall i :: 0 <= i < 3 ==> ClassOf(s.leds[i]) == ClassFor(l, i)
  }

  predicate AllDark(s: State)
  {
    forall i :: 0 <= i < 3 ==> s.leds[i] == Dark
  }

  /** One blink call gives its LED the new class, with the new delays unless it was blinking, and touches no other. */
  lemma BlinkShows(s: State, i: nat, level: bv32, onMS: int, offMS: int)
    requires CacheTrue(s) && i < 3
    ensures var (s', now) := (Blink(s, i, level, onMS, offMS), StatusFor(level, onMS, offMS));
            && CacheTrue(s') && ClassOf(s'.leds[i]) == now
            && (forall j :: 0 <= j < 3 && j != i ==> s'.leds[j] == s.leds[j] && s'.pre[j] == s.pre[j])
            && (now == BLINK ==> s'.leds[i] == if s.pre[i] == BLINK then s.leds[i] else Timer(onMS, offMS))
  {
  }

  /** Two LEDs are turned off and then the third one is set. */
  lemma ThreeBlinks(s: State, i: nat, j: nat, k: nat, level: bv32, onMS: int, offMS: int)
    requires CacheTrue(s) && i < 3 && j < 3 && k < 3 && i != j && j != k && i != k
    ensures var (s', now) := (Blink(Blink(Blink(s, i, 0, 0, 0), j, 0, 0, 0), k, level, onMS, offMS),
                              StatusFor(level, onMS, offMS));
            && CacheTrue(s')
            && (forall m :: 0 <= m < 3 ==> ClassOf(s'.leds[m]) == if m == k then now else OFF)
            && (now == BLINK ==> s'.leds[k] == if s.pre[k] == BLINK then s.leds[k] else Timer(onMS, offMS))
  {
    hide Blink, CacheTrue, ClassOf;
    var s1 := Blink(s, i, 0, 0, 0);
    var s2 := Blink(s1, j, 0, 0, 0);
    BlinkShows(s, i, 0, 0, 0);
    BlinkShows(s1, j, 0, 0, 0);
    BlinkShows(s2, k, level, onMS, offMS);
    var s3 := Blink(s2, k, level, onMS, offMS);
    forall m | 0 <= m < 3
      ensures ClassOf(s3.leds[m]) == if m == k then StatusFor(level, onMS, offMS) else OFF
    {
      assert m == i || m == j || m == k;
      assert s2.leds[i] == s1.leds[i] && s3.leds[i] == s2.leds[i] && s3.leds[j] == s2.leds[j];
    }
    assert s2.leds[k] == s1.leds[k] == s.leds[k] && s2.pre[k] == s1.pre[k] == s.pre[k];
  }

  /**
   The LEDs show the light state, with its delays when its LED was not blinking before and the old ones when it was.
   */
  lemma SpeakerShows(s: State, l: LightState)
    requires CacheTrue(s)
    ensures CacheTrue(SetSpeaker(s, l)) && Shows(SetSpeaker(s, l), l) && Displays(SetSpeaker(s, l).leds, l)
    ensures forall i :: 0 <= i < 3 && ClassFor(l, i) == BLINK ==>
              SetSpeaker(s, l).leds[i] == if s.pre[i] == BLINK then s.leds[i] else Timer(l.flashOnMS, l.flashOffMS)
  {
    hide Component, Blink, CacheTrue, ClassOf, Displays;
    ThreeBlinks(s, GREEN, BLUE, RED, Component(l, RED), OnMS(l), OffMS(l));
    ThreeBlinks(s, RED, BLUE, GREEN, Component(l, GREEN), OnMS(l), OffMS(l));
    ThreeBlinks(s, RED, GREEN, BLUE, Component(l, BLUE), OnMS(l), OffMS(l));
    ThreeBlinks(s, RED, GREEN, BLUE, 0, 0, 0);
    ShowsDisplays(SetSpeaker(s, l), l);
  }

  lemma UnlitHasNoColor(l: LightState)
    requires !IsLit(l)
    ensures Chosen(l) == None
  {
    var c := l.color;
    assert (c >> 16) & 0xFF == ((c & 0x00ffffff) >> 16) & 0xFF;
    assert (c >> 8) & 0xFF == ((c & 0x00ffffff) >> 8) & 0xFF;
    assert c & 0xFF == (c & 0x00ffffff) & 0xFF;
  }

  lemma DarkFromShows(s: State, l: LightState)
    requires Shows(s, l) && Chosen(l) == None
    ensures AllDark(s)
  {
    hide Chosen;
    forall i | 0 <= i < 3
      ensures s.leds[i] == Dark
    {
      assert ClassOf(s.leds[i]) == ClassFor(l, i) == OFF;
    }
  }

  /** With the battery unlit every LED is turned off first, so a blinking one always gets the current delays. */
  lemma HandleShows(s: State)
    requires CacheTrue(s)
    ensures var s' := HandleSpeakerBattery(s);
            && CacheTrue(s') && Shows(s', Deciding(s.battery, s.notification))
            && (!IsLit(s.battery) ==> forall i :: 0 <= i < 3 && s'.leds[i].Timer? ==>
                 s'.leds[i] == Timer(s.notification.flashOnMS, s.notification.flashOffMS))
  {
    hide IsLit, SetSpeaker, Chosen;
    SpeakerShows(s, s.battery);
    if !IsLit(s.battery) {
      var s1 := SetSpeaker(s, s.battery);
      UnlitHasNoColor(s.battery);
      DarkFromShows(s1, s.battery);
      SpeakerShows(s1, s.notification);
      var s2 := SetSpeaker(s1, s.notification);
      forall i | 0 <= i < 3 && s2.leds[i].Timer?
        ensures s2.leds[i] == Timer(s.notification.flashOnMS, s.notification.flashOffMS)
      {
        assert ClassOf(s2.leds[i]) == ClassFor(s.notification, i);
      }
    }
  }

  // ---------- runs ----------

  datatype Op = Battery(l: LightState) | Notification(l: LightState)

  function Apply(s: State, op: Op, trackball: bool): (s': State)
  {
    match op
    case Battery(l) => SetBattery(s, l, trackball)
    case Notification(l) => SetNotification(s, l)
  }

  function Run(s: State, ops: seq<Op>, trackball: bool): (s': State)
    decreases |ops|
  {
    if ops == [] then s else Run(Apply(s, ops[0], trackball), ops[1..], trackball)
  }

  /** The arguments of the last calls. */
  function LastBattery(ops: seq<Op>): LightState {
    if ops == [] then BLANK
    else if ops[|ops| - 1].Battery? then ops[|ops| - 1].l
    else LastBattery(ops[..|ops| - 1])
  }

  function LastNotification(ops: seq<Op>): LightState {
    if ops == [] then BLANK
    else if ops[|ops| - 1].Notification? then ops[|ops| - 1].l
    else LastNotification(ops[..|ops| - 1])
  }

  /** What holds between calls. */
  ghost predicate Inv(s: State) {
    && CacheTrue(s) && Shows(s, Deciding(s.battery, s.notification))
    && (!IsLit(s.battery) ==> forall i :: 0 <= i < 3 && s.leds[i].Timer? ==>
         s.leds[i] == Timer(s.notification.flashOnMS, s.notification.flashOffMS))
  }

  lemma ApplyKeeps(s: State, op: Op, trackball: bool)
    requires Inv(s)
    ensures Inv(Apply(s, op, trackball))
  {
    hide IsLit, SetSpeaker, HandleSpeakerBattery;
    match op
    case Battery(l) =>
      var s1 := s.(battery := l);
      SpeakerShows(s1, l);
      HandleShows(if trackball then SetSpeaker(s1, l) else s1);
    case Notification(l) => HandleShows(s.(notification := l));
  }

  lemma {:induction false} RunAppends(s: State, ops: seq<Op>, op: Op, trackball: bool)
    ensures Run(s, ops + [op], trackball) == Apply(Run(s, ops, trackball), op, trackball)
    decreases |ops|
  {
    hide Apply;
    if ops == [] {
      assert [op][1..] == [];
      assert Run(Apply(s, op, trackball), [], trackball) == Apply(s, op, trackball);
    } else {
      assert (ops + [op])[1..] == ops[1..] + [op];
      RunAppends(Apply(s, ops[0], trackball), ops[1..], op, trackball);
    }
  }

  function Initial(): (s: State)
  {
    Fields([OFF, OFF, OFF], [Dark, Dark, Dark], BLANK, BLANK)
  }

  lemma {:induction false} RunKeeps(ops: seq<Op>, trackball: bool)
    ensures var s := Run(Initial(), ops, trackball);
            Inv(s) && s.battery == LastBattery(ops) && s.notification == LastNotification(ops)
    decreases |ops|
  {
    hide Inv, Apply;
    if ops == [] {
      InitialInv();
    } else {
      var k := |ops| - 1;
      RunKeeps(ops[..k], trackball);
      assert ops == ops[..k] + [ops[k]];
      RunAppends(Initial(), ops[..k], ops[k], trackball);
      ApplyKeeps(Run(Initial(), ops[..k], trackball), ops[k], trackball);
      ApplyRemembers(Run(Initial(), ops[..k], trackball), ops[k], trackball);
    }
  }

  lemma InitialInv()
    ensures Inv(Initial())
  {
    UnlitHasNoColor(BLANK);
  }

  lemma ApplyRemembers(s: State, op: Op, trackball: bool)
    ensures Apply(s, op, trackball).battery == if op.Battery? then op.l else s.battery
    ensures Apply(s, op, trackball).notification == if op.Notification? then op.l else s.notification
  {
  }

  /**
   Main result.  After any run of battery and notification calls: each cache agrees with its device; what is shown is
   a function of the last battery and the last notification state alone, the battery's as soon as it has a color, and
   only the LED of its color is not off; and with the battery unlit a blinking LED has the delays of the current
   notification.
   */
  lemma LedsFollowLatestStates(ops: seq<Op>, trackball: bool)
    ensures var (s, battery, notification) := (Run(Initial(), ops, trackball), LastBattery(ops), LastNotification(ops));
            && CacheTrue(s)
            && Displays(s.leds, if HasColor(battery) then battery else notification)
            && (forall i, j :: 0 <= i < j < 3 ==> s.leds[i] == Dark || s.leds[j] == Dark)
            && (!HasColor(battery) ==> forall i :: 0 <= i < 3 && s.leds[i].Timer? ==>
                 s.leds[i] == Timer(notification.flashOnMS, notification.flashOffMS))
  {
    hide Displays, Run, Shows, IsLit, HasColor;
    RunKeeps(ops, trackball);
    HasColorIsLit(LastBattery(ops));
    var s := Run(Initial(), ops, trackball);
    ShowsDisplays(s, Deciding(s.battery, s.notification));
    forall i, j | 0 <= i < j < 3
      ensures s.leds[i] == Dark || s.leds[j] == Dark
    {
      OneLedOnly(s, Deciding(s.battery, s.notification), i, j);
    }
  }

  /** A green notification that is on for longer than it is off, and nothing else. */
  lemma GreenNotificationBlinks(trackball: bool)
    ensures Run(Initial(), [Notification(LightState(0xFF00FF00, 1, 500, 200))], trackball).leds ==
            [Dark, Timer(500, 200), Dark]
  {
    var l := LightState(0xFF00FF00, 1, 500, 200);
    var ops := [Notification(l)];
    LedsFollowLatestStates(ops, trackball);
    assert ops[..0] == [] && LastBattery(ops) == BLANK && LastNotification(ops) == l;
    var leds := Run(Initial(), ops, trackball).leds;
    assert |leds| == 3 && LedOf(l) == Some(1);
    assert leds == [leds[0], leds[1], leds[2]];
  }

  lemma OneLedOnly(s: State, l: LightState, i: nat, j: nat)
    requires Shows(s, l) && i < j < 3
    ensures s.leds[i] == Dark || s.leds[j] == Dark
  {
    hide Chosen;
    assert ClassOf(s.leds[i]) == ClassFor(l, i) && ClassOf(s.leds[j]) == ClassFor(l, j);
  }

  /**
   With the battery lit the delays can be old ones: a new blinking battery state gets its delays onto the device
   exactly when its LED was not blinking already, or was blinking with those very delays.
   */
  lemma BatteryDelaysFreshIff(s: State, l: LightState, trackball: bool, i: nat)
    requires Inv(s) && IsLit(l) && i < 3 && ClassFor(l, i) == BLINK
    ensures SetBattery(s, l, trackball).leds[i] == Timer(l.flashOnMS, l.flashOffMS) <==>
            s.pre[i] != BLINK || s.leds[i] == Timer(l.flashOnMS, l.flashOffMS)
  {
    hide IsLit, Chosen, SetSpeaker;
    var s1 := s.(battery := l);
    SpeakerShows(s1, l);
    var s2 := SetSpeaker(s1, l);
    assert s2.pre[i] == ClassFor(l, i);
    SpeakerShows(s2, l);
  }

  /** A low battery that starts to blink faster on the same LED keeps blinking at the old rate. */
  lemma BatteryDelaysStale()
    ensures var (slow, fast) := (LightState(0xFFFF0000, 1, 1000, 1000), LightState(0xFFFF0000, 1, 100, 100));
            Run(Initial(), [Battery(slow), Battery(fast)], false).leds[RED] == Timer(1000, 1000)
  {
    var (slow, fast) := (LightState(0xFFFF0000, 1, 1000, 1000), LightState(0xFFFF0000, 1, 100, 100));
    RunKeeps([], false);
    var s1 := SetBattery(Initial(), slow, false);
    ApplyKeeps(Initial(), Battery(slow), false);
    BatteryDelaysFreshIff(Initial(), slow, false, RED);
    BatteryDelaysFreshIff(s1, fast, false, RED);
    RunAppends(Initial(), [], Battery(slow), false);
    RunAppends(Initial(), [Battery(slow)], Battery(fast), false);
    assert [] + [Battery(slow)] == [Battery(slow)];
    assert [Battery(slow)] + [Battery(fast)] == [Battery(slow), Battery(fast)];
  }

  // ---------- the trackball light ----------

  /** An LED that has been given a class keeps it, and its delays, when it is given the same again. */
  lemma BlinkTwice(s: State, i: nat, level: bv32, onMS: int, offMS: int)
    requires i < 3 && s.pre[i] == StatusFor(level, onMS, offMS)
    ensures Blink(s, i, level, onMS, offMS) == s
  {
  }

  lemma BlinkSets(s: State, i: nat, level: bv32, onMS: int, offMS: int)
    requires i < 3
    ensures var s' := Blink(s, i, level, onMS, offMS);
            s'.pre == s.pre[i := StatusFor(level, onMS, offMS)] && StatusFor(0, 0, 0) == OFF
  {
  }

  /** Setting the speaker light to the same state again changes nothing. */
  lemma SpeakerTwice(s: State, l: LightState)
    ensures SetSpeaker(SetSpeaker(s, l), l) == SetSpeaker(s, l)
  {
    hide Component, StatusFor, OnMS, OffMS;
    var (red, green, blue) := (Component(l, RED), Component(l, GREEN), Component(l, BLUE));
    ColorTwice(s, red, green, blue, OnMS(l), OffMS(l));
  }

  lemma ColorTwice(s: State, red: bv32, green: bv32, blue: bv32, onMS: int, offMS: int)
    ensures ShowColor(ShowColor(s, red, green, blue, onMS, offMS), red, green, blue, onMS, offMS) ==
            ShowColor(s, red, green, blue, onMS, offMS)
  {
    hide Blink;
    if red != 0 {
      BlinksTwice(s, GREEN, BLUE, RED, red, onMS, offMS);
    } else if green != 0 {
      BlinksTwice(s, RED, BLUE, GREEN, green, onMS, offMS);
    } else if blue != 0 {
      BlinksTwice(s, RED, GREEN, BLUE, blue, onMS, offMS);
    } else {
      BlinksTwice(s, RED, GREEN, BLUE, 0, 0, 0);
    }
  }

  lemma BlinksTwice(s: State, i: nat, j: nat, k: nat, level: bv32, onMS: int, offMS: int)
    requires i < 3 && j < 3 && k < 3 && i != j && j != k && i != k
    ensures var s' := Blink(Blink(Blink(s, i, 0, 0, 0), j, 0, 0, 0), k, level, onMS, offMS);
            Blink(Blink(Blink(s', i, 0, 0, 0), j, 0, 0, 0), k, level, onMS, offMS) == s'
  {
    hide Blink, StatusFor;
    var s1 := Blink(s, i, 0, 0, 0);
    var s2 := Blink(s1, j, 0, 0, 0);
    var s' := Blink(s2, k, level, onMS, offMS);
    BlinkSets(s, i, 0, 0, 0);
    BlinkSets(s1, j, 0, 0, 0);
    BlinkSets(s2, k, level, onMS, offMS);
    BlinkTwice(s', i, 0, 0, 0);
    BlinkTwice(s', j, 0, 0, 0);
    BlinkTwice(s', k, level, onMS, offMS);
  }

  /** Whether there is a trackball light makes no difference to what a battery call does to the LEDs. */
  lemma TrackballMakesNoDifference(s: State, l: LightState)
    ensures SetBattery(s, l, true) == SetBattery(s, l, false)
  {
    hide SetSpeaker, IsLit;
    SpeakerTwice(s.(battery := l), l);
  }

  // ---------- the module state ----------

  class LightsModule {
    const haveTrackballLight: bool
    var preStatus: seq<nat>
    var leds: seq<Led>
    var battery: LightState
    var notification: LightState
    var attention: int                  // g_attention and g_backlight, which other calls set
    var backlight: int
    var trackballFile: Option<int>      // what was last written to the trackball's file

    ghost predicate Valid()
      reads this
    {
      |preStatus| == 3 && |leds| == 3
    }

    ghost function View(): State
      requires Valid()
      reads this
    {
      Fields(preStatus, leds, battery, notification)
    }

    constructor (haveTrackballLight: bool)
      ensures Valid() && View() == Initial() && this.haveTrackballLight == haveTrackballLight
    {
      this.haveTrackballLight := haveTrackballLight;
      preStatus, leds, battery, notification := [OFF, OFF, OFF], [Dark, Dark, Dark], BLANK, BLANK;
      attention, backlight, trackballFile := 0, 255, None;
    }

    /** The three blink functions differ only in the files they write. */
    method BlinkLed(i: nat, level: bv32, onMS: int, offMS: int) returns (ret: int)
      requires Valid() && i < 3
      modifies this`preStatus, this`leds
      ensures Valid() && View() == Blink(old(View()), i, level, onMS, offMS)
      ensures ret == if old(preStatus)[i] == StatusFor(level, onMS, offMS) then -1 else 0
    {
      var nowStatus;
      if level == 0 {
        nowStatus := OFF;
      } else if onMS != 0 && offMS != 0 {
        nowStatus := BLINK;
      } else {
        nowStatus := NO_BLINK;
      }
      if preStatus[i] == nowStatus {
        return -1;
      }
      if nowStatus == OFF {
        leds := leds[i := Dark];
      } else if nowStatus == BLINK {
        leds := leds[i := Timer(onMS, offMS)];
      } else {
        leds := leds[i := Full];
      }
      preStatus := preStatus[i := nowStatus];
      return 0;
    }

    method SetSpeakerLight(l: LightState)
      requires Valid()
      modifies this`preStatus, this`leds
      ensures Valid() && View() == SetSpeaker(old(View()), l)
    {
      hide ShowColor, AlphaOf, RedOf, GreenOf, BlueOf;
      var onMS, offMS := 0, 0;
      if l.flashMode == LIGHT_FLASH_TIMED {
        onMS, offMS := l.flashOnMS, l.flashOffMS;
      }
      var red, green, blue: bv32 := 0, 0, 0;
      if AlphaOf(l.color) != 0 {
        red, green, blue := RedOf(l.color), GreenOf(l.color), BlueOf(l.color);
      }
      BlinkColor(red, green, blue, onMS, offMS);
    }

    method BlinkColor(red: bv32, green: bv32, blue: bv32, onMS: int, offMS: int)
      requires Valid()
      modifies this`preStatus, this`leds
      ensures Valid() && View() == ShowColor(old(View()), red, green, blue, onMS, offMS)
    {
      hide Blink, StatusFor;
      var ret;
      if red != 0 {
        ret := BlinkLed(GREEN, 0, 0, 0);
        ret := BlinkLed(BLUE, 0, 0, 0);
        ret := BlinkLed(RED, red, onMS, offMS);
      } else if green != 0 {
        ret := BlinkLed(RED, 0, 0, 0);
        ret := BlinkLed(BLUE, 0, 0, 0);
        ret := BlinkLed(GREEN, green, onMS, offMS);
      } else if blue != 0 {
        ret := BlinkLed(RED, 0, 0, 0);
        ret := BlinkLed(GREEN, 0, 0, 0);
        ret := BlinkLed(BLUE, blue, onMS, offMS);
      } else {
        ret := BlinkLed(RED, 0, 0, 0);
        ret := BlinkLed(GREEN, 0, 0, 0);
        ret := BlinkLed(BLUE, 0, 0, 0);
      }
    }

    method HandleSpeakerBatteryLight()
      requires Valid()
      modifies this`preStatus, this`leds
      ensures Valid() && View() == HandleSpeakerBattery(old(View()))
    {
      if IsLit(battery) {
        SetSpeakerLight(battery);
      } else {
        SetSpeakerLight(battery);
        SetSpeakerLight(notification);
      }
    }

    method SetLightBattery(l: LightState)
      requires Valid()
      modifies this`preStatus, this`leds, this`battery
      ensures Valid() && View() == SetBattery(old(View()), l, haveTrackballLight)
    {
      hide SetSpeaker;
      battery := l;
      if haveTrackballLight {
        SetSpeakerLight(l);
      }
      HandleSpeakerBatteryLight();
    }

    /** The mode is written unless it is the one in g_trackball, which is never anything but -1. */
    method HandleTrackballLight()
      modifies this`trackballFile
      ensures attention == -1 ==> trackballFile == old(trackballFile)
      ensures attention == 7 ==> trackballFile == Some(if backlight != 0 then 0 else 7)
      ensures attention != -1 && attention != 7 ==> trackballFile == Some(attention)
    {
      var mode := attention;
      if mode == 7 && backlight != 0 {
        mode := 0;
      }
      if TRACKBALL == mode {
        return;
      }
      trackballFile := Some(mode);
    }

    method SetLightNotifications(l: LightState)
      requires Valid()
      modifies this`preStatus, this`leds, this`notification, this`trackballFile
      ensures Valid() && View() == SetNotification(old(View()), l)
      ensures !haveTrackballLight || attention == -1 ==> trackballFile == old(trackballFile)
      ensures haveTrackballLight && attention == 7 ==> trackballFile == Some(if backlight != 0 then 0 else 7)
      ensures haveTrackballLight && attention != -1 && attention != 7 ==> trackballFile == Some(attention)
    {
      notification := l;
      if haveTrackballLight {
        HandleTrackballLight();
      }
      HandleSpeakerBatteryLight();
    }
  }

  const TRACKBALL := -1
}
