/** The application's in-memory state (App.tsx): the current view, the chosen role, the
    signed-in user, the registered patients, the consultation history and the dashboard
    statistics, with the handlers that move between them. Timestamps and ids made from the
    clock are parameters. */
module AppState {
  import opened Wrappers
  import opened Types
  import Prescription

  datatype View = Landing | AuthView | DashboardView | Live | RecordDetail

  /** The user installed by a doctor login. */
  const DoctorUser := Patient("DR-98765", "Dr. Smith (Demo)", "", "N/A", "N/A", "English")

  /** The languages the chart counts, in chart order. */
  const ChartLanguages: seq<string> := ["Telugu", "Hindi", "Odia"]

  function InitialStats(): (s: DashboardStats)
    ensures s.totalConsultations == 0 && s.dailyActivity == []
  {
    DashboardStats(0, 0, [LanguageCount("Telugu", 0), LanguageCount("Hindi", 0), LanguageCount("Odia", 0)], [])
  }

  // ---- Looking up patients ----

  /** `patients.find(p => p.id === id)`: the first patient with that id. */
  function FindById(patients: seq<Patient>, id: string): (r: Option<Patient>)
    ensures r.None? <==> forall i :: 0 <= i < |patients| ==> patients[i].id != id
    ensures r.Some? ==> r.value in patients && r.value.id == id
    decreases |patients|
  {
    if patients == [] then None
    else if patients[0].id == id then Some(patients[0])
    else FindById(patients[1..], id)
  }

  predicate UniqueIds(patients: seq<Patient>) {
    forall i, j :: 0 <= i < j < |patients| ==> patients[i].id != patients[j].id
  }

  // ---- The language chart ----

  function Names(dist: seq<LanguageCount>): (r: seq<string>)
    ensures |r| == |dist|
    ensures forall i :: 0 <= i < |dist| ==> r[i] == dist[i].name
    decreases |dist|
  {
    if dist == [] then [] else [dist[0].name] + Names(dist[1..])
  }

  /** All consultations the chart shows. */
  function Total(dist: seq<LanguageCount>): nat
    decreases |dist|
  {
    if dist == [] then 0 else dist[0].value + Total(dist[1..])
  }

  /** How many chart entries carry the given language. */
  function Matches(dist: seq<LanguageCount>, language: Option<string>): (n: nat)
    ensures n <= |dist|
    ensures language.None? ==> n == 0
    decreases |dist|
  {
    if dist == [] then 0
    else (if language == Some(dist[0].name) then 1 else 0) + Matches(dist[1..], language)
  }

  /** The `map` over the chart after a consultation: the entry named after the user's language
      goes up by one. */
  function IncrementLanguage(dist: seq<LanguageCount>, language: Option<string>): (r: seq<LanguageCount>)
    ensures |r| == |dist|
    ensures forall i :: 0 <= i < |dist| ==> r[i].name == dist[i].name
    ensures forall i :: 0 <= i < |dist| && language != Some(dist[i].name) ==> r[i] == dist[i]
    ensures forall i :: 0 <= i < |dist| && language == Some(dist[i].name) ==> r[i].value == dist[i].value + 1
  {
    seq(|dist|, i requires 0 <= i < |dist| =>
      if language == Some(dist[i].name) then dist[i].(value := dist[i].value + 1) else dist[i])
  }

  /** The chart's total goes up by the number of entries named after the language. */
  lemma {:induction false} TotalIncrement(dist: seq<LanguageCount>, language: Option<string>)
    ensures Total(IncrementLanguage(dist, language)) == Total(dist) + Matches(dist, language)
    decreases |dist|
  {
    if dist != [] {
      TotalIncrement(dist[1..], language);
      assert IncrementLanguage(dist, language)[1..] == IncrementLanguage(dist[1..], language);
    }
  }

  /** With distinct names at most one entry matches, and none when the language is not on the
      chart. */
  lemma {:induction false} MatchesAtMostOne(dist: seq<LanguageCount>, language: Option<string>)
    requires forall i, j :: 0 <= i < j < |dist| ==> dist[i].name != dist[j].name
    ensures Matches(dist, language) <= 1
    ensures (language.None? || language.value !in Names(dist)) ==> Matches(dist, language) == 0
    decreases |dist|
  {
    if dist != [] {
      MatchesAtMostOne(dist[1..], language);
      assert Names(dist) == [dist[0].name] + Names(dist[1..]);
      if language == Some(dist[0].name) {
        NoMatchWithout(dist[1..], dist[0].name);
      }
    }
  }

  lemma {:induction false} NoMatchWithout(dist: seq<LanguageCount>, name: string)
    requires forall i :: 0 <= i < |dist| ==> dist[i].name != name
    ensures Matches(dist, Some(name)) == 0
    decreases |dist|
  {
    if dist != [] {
      NoMatchWithout(dist[1..], name);
    }
  }

  /** A doctor's consultation (language English) counts in the total but in no chart entry. */
  lemma EnglishCountsNowhere(dist: seq<LanguageCount>)
    requires Names(dist) == ChartLanguages
    ensures IncrementLanguage(dist, Some(DoctorUser.primaryLanguage)) == dist
  {
    var r := IncrementLanguage(dist, Some(DoctorUser.primaryLanguage));
    forall i | 0 <= i < |dist| ensures r[i] == dist[i] {
      assert dist[i].name == Names(dist)[i];
    }
  }

  /** Counting a consultation keeps the chart's languages and adds at most one to its total. */
  lemma CountedOnce(dist: seq<LanguageCount>, language: Option<string>)
    requires Names(dist) == ChartLanguages
    ensures Names(IncrementLanguage(dist, language)) == ChartLanguages
    ensures Total(IncrementLanguage(dist, language)) <= Total(dist) + 1
  {
    TotalIncrement(dist, language);
    forall i, j | 0 <= i < j < |dist| ensures dist[i].name != dist[j].name {
      assert dist[i].name == ChartLanguages[i] && dist[j].name == ChartLanguages[j];
    }
    MatchesAtMostOne(dist, language);
    assert Names(IncrementLanguage(dist, language)) == Names(dist);
  }

  /** For the demo doctor the handler computes the prescriber name `Dr. Smith (Cardiologist)`,
      which the document does not print, and the printed age is `N/A` (their date of birth is
      empty). */
  lemma DoctorPrescriptionValues(currentYear: int, birthYear: Option<int>)
    ensures Prescription.PrescriberName(Some(DoctorUser)) == "Dr. Smith (Cardiologist)"
    ensures Prescription.DemographicsOf(Some(DoctorUser), currentYear, birthYear).age == Prescription.NotAvailable
  {
  }

  /** The record appended when a consultation ends. */
  function NewRecord(stamp: string, isoDate: string, user: Option<Patient>, transcript: seq<ChatMessage>, summary: string): (r: ConsultationRecord)
    ensures r.status == Completed && r.doctorNotes.None?
    ensures r.patientId == (if user.Some? then user.value.id else "Unknown")
    ensures r.id == "CONS-" + stamp && r.date == isoDate
    ensures r.transcript == transcript && r.summary == summary
  {
    ConsultationRecord("CONS-" + stamp, if user.Some? then user.value.id else "Unknown", isoDate, transcript, summary, Completed, None)
  }

  class App {
    var view: View
    var userRole: Option<UserRole>
    var currentUser: Option<Patient>
    var patients: seq<Patient>
    var history: seq<ConsultationRecord>
    var stats: DashboardStats

    /** The bookkeeping the handlers keep: one consultation counted per record, the chart's
        languages fixed and never counting more than the records, no two patients with the
        same id, every record completed. */
    ghost predicate Valid()
      reads this
    {
      && stats.totalConsultations == |history|
      && Names(stats.languageDistribution) == ChartLanguages
      && Total(stats.languageDistribution) <= |history|
      && UniqueIds(patients)
      && forall i :: 0 <= i < |history| ==> history[i].status == Completed
    }

    constructor()
      ensures Valid()
      ensures view == Landing && userRole.None? && currentUser.None?
      ensures patients == [] && history == [] && stats == InitialStats()
    {
      view := Landing;
      userRole := None;
      currentUser := None;
      patients := [];
      history := [];
      stats := InitialStats();
    }

    method HandleSelectRole(role: UserRole)
      requires Valid()
      modifies this
      ensures Valid()
      ensures userRole == Some(role) && view == AuthView
      ensures currentUser == old(currentUser) && patients == old(patients)
      ensures history == old(history) && stats == old(stats)
    {
      userRole := Some(role);
      view := AuthView;
    }

    /** A patient login signs the patient in and registers them unless their id is known; a
        doctor login installs the demo doctor. Without a role, or a patient login without a
        patient, nothing changes. */
    method HandleLogin(patient: Option<Patient>)
      requires Valid()
      modifies this
      ensures Valid()
      ensures old(userRole) == Some(PatientRole) && patient.Some? ==>
        && currentUser == patient && view == DashboardView
        && patients == old(if FindById(patients, patient.value.id).None? then patients + [patient.value] else patients)
      ensures old(userRole) == Some(Doctor) ==>
        currentUser == Some(DoctorUser) && view == DashboardView && patients == old(patients)
      ensures (old(userRole).None? || (old(userRole) == Some(PatientRole) && patient.None?)) ==>
        currentUser == old(currentUser) && view == old(view) && patients == old(patients)
      ensures userRole == old(userRole) && history == old(history) && stats == old(stats)
    {
      if userRole == Some(PatientRole) && patient.Some? {
        currentUser := patient;
        if FindById(patients, patient.value.id).None? {
          patients := patients + [patient.value];
        }
        view := DashboardView;
      } else if userRole == Some(Doctor) {
        currentUser := Some(DoctorUser);
        view := DashboardView;
      }
    }

    method HandleBackToLanding()
      requires Valid()
      modifies this
      ensures Valid()
      ensures view == Landing && userRole.None? && currentUser.None?
      ensures patients == old(patients) && history == old(history) && stats == old(stats)
    {
      view := Landing;
      userRole := None;
      currentUser := None;
    }

    /** The end of a consultation: a patient session without a signed-in user only returns to
        the dashboard; otherwise the record goes first in the history and the statistics count
        it, in the total and under the user's language. */
    method HandleSessionEnd(transcript: seq<ChatMessage>, summary: string, stamp: string, isoDate: string)
      requires Valid()
      modifies this
      ensures Valid()
      ensures view == DashboardView
      ensures userRole == old(userRole) && currentUser == old(currentUser) && patients == old(patients)
      ensures old(currentUser).None? && old(userRole) == Some(PatientRole) ==>
        history == old(history) && stats == old(stats)
      ensures !(old(currentUser).None? && old(userRole) == Some(PatientRole)) ==>
        && history == [NewRecord(stamp, isoDate, old(currentUser), transcript, summary)] + old(history)
        && stats == old(stats).(
             totalConsultations := old(stats.totalConsultations) + 1,
             languageDistribution := IncrementLanguage(old(stats.languageDistribution),
               if old(currentUser).Some? then Some(old(currentUser).value.primaryLanguage) else None))
    {
      if currentUser.None? && userRole == Some(PatientRole) {
        view := DashboardView;
        return;
      }
      var record := NewRecord(stamp, isoDate, currentUser, transcript, summary);
      history := [record] + history;
      var language := if currentUser.Some? then Some(currentUser.value.primaryLanguage) else None;
      var dist := stats.languageDistribution;
      CountedOnce(dist, language);
      stats := stats.(totalConsultations := stats.totalConsultations + 1,
                      languageDistribution := IncrementLanguage(dist, language));
      view := DashboardView;
    }
  }
}
