/**
 The application's configuration tables: the number of rounds, the schedule
 of the day, the heart rate of each activity and the fact shown after a
 correct answer, together with the facts about them the two cores rely on.
 */
module Constants {
  import opened Types

  const MAX_ROUNDS: int := 6

  const DAILY_SCHEDULE: seq<DayEvent> := [
    DayEvent("02:00", Sleeping, "לילה עמוק, הגוף במנוחה מוחלטת."),
    DayEvent("08:30", Walking, "הליכה קלה לעבודה באוויר הקריר."),
    DayEvent("11:15", Crisis, "פתאום משהו לא מרגיש תקין בלב..."),
    DayEvent("16:00", Sprinting, "אימון ריצה אינטנסיבי בפארק."),
    DayEvent("19:45", Crisis, "שוב דפיקות לב לא סדירות בערב."),
    DayEvent("23:30", Sleeping, "סוף היום, חזרה לשינה והתאוששות.")
  ]

  /** Beats per minute; 0 for `Crisis`, which has no defined rate. */
  const BPM_MAP: map<ActivityLevel, nat> :=
    map[Sleeping := 60, Walking := 100, Sprinting := 170, Crisis := 0]

  const SCIENTIFIC_FACTS: map<ActivityLevel, string> := map[
    Sleeping := "נכון! בזמן שינה הלב פועם בקצב נמוך כדי לחסוך באנרגיה.",
    Walking := "מעולה! הליכה מעלה מעט את הדופק כדי להזרים חמצן לשרירים.",
    Sprinting := "בדיוק! במאמץ גבוה הלב מגיע לדופק גבוה מאוד כדי לעמוד בדרישת השרירים.",
    Crisis := "נכון. זהו מקצב לא תקין המעיד על הפרעה חשמלית בלב."
  ]

  /** The rate looked up for an activity. */
  function Bpm(a: ActivityLevel): (bpm: nat)
    ensures a == Crisis <==> bpm == 0
    ensures a in BPM_MAP && BPM_MAP[a] == bpm
  {
    match a
    case Sleeping => BPM_MAP[Sleeping]
    case Walking => BPM_MAP[Walking]
    case Sprinting => BPM_MAP[Sprinting]
    case Crisis => BPM_MAP[Crisis]
  }

  lemma ScheduleHasOneEventPerRound()
    ensures |DAILY_SCHEDULE| == MAX_ROUNDS == 6
  {
  }

  /** Every activity has a rate, and only `Crisis` lacks a positive one. */
  lemma BpmMapTotal()
    ensures forall a: ActivityLevel :: a in BPM_MAP
    ensures forall a: ActivityLevel :: a in BPM_MAP && (BPM_MAP[a] == 0 <==> a == Crisis)
  {
    forall a: ActivityLevel ensures a in BPM_MAP && (BPM_MAP[a] == 0 <==> a == Crisis) {
      match a
      case Sleeping =>
      case Walking =>
      case Sprinting =>
      case Crisis =>
    }
  }

  lemma RatesIncreaseWithExertion()
    ensures Bpm(Sleeping) < Bpm(Walking) < Bpm(Sprinting)
    ensures Bpm(Sleeping) == 60 && Bpm(Walking) == 100 && Bpm(Sprinting) == 170
  {
  }

  /** Every activity has a fact, and no fact is empty. */
  lemma FactsCoverEveryActivity()
    ensures forall a: ActivityLevel :: a in SCIENTIFIC_FACTS && |SCIENTIFIC_FACTS[a]| > 0
  {
    forall a: ActivityLevel ensures a in SCIENTIFIC_FACTS && |SCIENTIFIC_FACTS[a]| > 0 {
      match a
      case Sleeping =>
      case Walking =>
      case Sprinting =>
      case Crisis =>
    }
  }

  // Clock times "HH:MM"

  predicate IsDigit(c: char) {
    '0' <= c <= '9'
  }

  function DigitValue(c: char): nat
    requires IsDigit(c)
  {
    c as nat - '0' as nat
  }

  /** A clock time: two digits, a colon, two digits, hour below 24 and minute below 60. */
  predicate WellFormedTime(s: string) {
    && |s| == 5
    && IsDigit(s[0]) && IsDigit(s[1]) && s[2] == ':' && IsDigit(s[3]) && IsDigit(s[4])
    && 10 * DigitValue(s[0]) + DigitValue(s[1]) < 24
    && 10 * DigitValue(s[3]) + DigitValue(s[4]) < 60
  }

  /** Minutes since midnight of a well-formed clock time. */
  function MinuteOfDay(s: string): (m: nat)
    requires WellFormedTime(s)
    ensures m < 24 * 60
  {
    60 * (10 * DigitValue(s[0]) + DigitValue(s[1])) + 10 * DigitValue(s[3]) + DigitValue(s[4])
  }

  /** The schedule's times are clock times, strictly increasing through one day. */
  lemma ScheduleIsChronological()
    ensures forall i :: 0 <= i < |DAILY_SCHEDULE| ==> WellFormedTime(DAILY_SCHEDULE[i].time)
    ensures forall i, j :: 0 <= i < j < |DAILY_SCHEDULE| ==>
      MinuteOfDay(DAILY_SCHEDULE[i].time) < MinuteOfDay(DAILY_SCHEDULE[j].time)
  {
  }
}
