/** The records the application passes around. `Patient` has the shape the login form builds
    and the application reads (id, name, date of birth, gender, address, language). */
module Types {
  import opened Wrappers

  /** Who spoke a transcript line: the captured speaker (`'user'`) or the translation (`'model'`). */
  datatype ChatRole = User | Model

  /** One committed transcript line; the timestamp is the clock value passed in by the caller. */
  datatype ChatMessage = ChatMessage(role: ChatRole, text: string, timestamp: int)

  datatype UserRole = Doctor | PatientRole

  datatype Patient = Patient(
    id: string,
    name: string,
    dob: string,
    gender: string,
    address: string,
    primaryLanguage: string)

  datatype RecordStatus = Completed | Pending

  datatype ConsultationRecord = ConsultationRecord(
    id: string,
    patientId: string,
    date: string,
    transcript: seq<ChatMessage>,
    summary: string,
    status: RecordStatus,
    doctorNotes: Option<string>)

  /** One bar of the language chart: a language name and its consultation count. */
  datatype LanguageCount = LanguageCount(name: string, value: nat)

  datatype DailyActivity = DailyActivity(day: string, consultations: nat)

  datatype DashboardStats = DashboardStats(
    totalConsultations: nat,
    avgDurationMinutes: int,
    languageDistribution: seq<LanguageCount>,
    dailyActivity: seq<DailyActivity>)
}
