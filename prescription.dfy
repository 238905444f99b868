/** The prescription PDF (App.tsx `handleDownloadPdf`) without its layout: the date and record
    lines, the patient lines, the vitals, the clinical text, the Rx block, the signature label
    and the file name the document is saved under. The clock and date parsing are parameters:
    the formatted current date, the current year, and the year the date of birth parses to, if
    it parses. */
module Prescription {
  import opened Wrappers
  import opened Text
  import opened Types
  import Vitals
  import Medication

  // ---- The Rx block ----

  const RuledLineCount: nat := 4
  const RuledLineSpacing: nat := 5
  const HandwritingLabel := "Medications :"

  /** Either the medication text is printed, or a label and blank ruled lines are left for a
      handwritten prescription. */
  datatype RxBlock = Printed(medication: string) | Handwritten(caption: string, ruledLines: nat)

  function RxBlockFor(medication: string): (b: RxBlock)
    ensures b.Printed? <==> medication != ""
    ensures b.Printed? ==> b.medication == medication
    ensures b.Handwritten? ==> b.caption == HandwritingLabel && b.ruledLines == RuledLineCount
  {
    if |medication| > 0 then Printed(medication) else Handwritten(HandwritingLabel, RuledLineCount)
  }

  /** The loop drawing the blank lines: one line per step, each `RuledLineSpacing` below the
      previous, as vertical offsets from the first. */
  method RuledLineOffsets() returns (offsets: seq<int>)
    ensures |offsets| == RuledLineCount
    ensures forall i :: 0 <= i < |offsets| ==> offsets[i] == RuledLineSpacing * i
    ensures forall i, j :: 0 <= i < j < |offsets| ==> offsets[i] < offsets[j]
  {
    offsets := [];
    var i := 0;
    while i < RuledLineCount
      invariant 0 <= i <= RuledLineCount
      invariant |offsets| == i
      invariant forall k :: 0 <= k < i ==> offsets[k] == RuledLineSpacing * k
    {
      offsets := offsets + [RuledLineSpacing * i];
      i := i + 1;
    }
  }

  /** A summary without any marker always gets the handwriting space. */
  lemma NoMarkerHandwritten(summary: string)
    requires Medication.FirstListed(ToLower(summary)).None?
    ensures RxBlockFor(Medication.SplitAt(summary, Medication.FirstListed(ToLower(summary))).1).Handwritten?
  {
  }

  /** With a marker, the medication is printed exactly when something other than white space
      follows the marker. */
  lemma MarkerPrintedIff(summary: string, m: Medication.Marker)
    requires m.keyword in Medication.MedKeywords && OccursAt(ToLower(summary), m.keyword, m.at)
    ensures RxBlockFor(Medication.SplitAt(summary, Some(m)).1).Printed?
        <==> !IsBlank(summary[m.at + |m.keyword|..])
  {
    Medication.SplitAtMarker(summary, m.at, m.keyword);
    BlankIffAllWhite(summary[m.at + |m.keyword|..]);
  }

  // ---- The file name ----

  const FilePrefix := "PRESCRIPTION-"
  const FileSuffix := ".pdf"

  function PdfFileName(recordId: string): (name: string)
    ensures |name| == |FilePrefix| + |recordId| + |FileSuffix|
  {
    FilePrefix + recordId + FileSuffix
  }

  /** The record id a saved file name carries, if the name has the document's shape. */
  function RecordIdOf(name: string): (id: Option<string>)
    ensures id.Some? ==> |id.value| + |FilePrefix| + |FileSuffix| == |name|
  {
    if |name| >= |FilePrefix| + |FileSuffix|
       && name[..|FilePrefix|] == FilePrefix
       && name[|name| - |FileSuffix|..] == FileSuffix
    then Some(name[|FilePrefix|..|name| - |FileSuffix|])
    else None
  }

  /** Every record gets its own file: the id can be read back from the name. */
  lemma FileNameRoundTrip(recordId: string)
    ensures RecordIdOf(PdfFileName(recordId)) == Some(recordId)
  {
    var name := PdfFileName(recordId);
    assert name[..|FilePrefix|] == FilePrefix;
    assert name[|name| - |FileSuffix|..] == FileSuffix;
    assert name[|FilePrefix|..|name| - |FileSuffix|] == recordId;
  }

  /** And every name of that shape is the name of the record it carries. */
  lemma FileNameParsedBack(name: string)
    requires RecordIdOf(name).Some?
    ensures PdfFileName(RecordIdOf(name).value) == name
  {
    var id := RecordIdOf(name).value;
    assert name == name[..|FilePrefix|] + id + name[|name| - |FileSuffix|..];
  }

  // ---- The patient lines ----

  /** `value || 'N/A'`: the empty string is replaced. */
  function OrNotAvailable(value: string): (r: string)
    ensures r != ""
    ensures value != "" ==> r == value
    ensures value == "" ==> r == "N/A"
  {
    if value == "" then "N/A" else value
  }

  /** What the age line shows: a number of years, `NaN` for a date of birth that does not
      parse, or `N/A`. */
  datatype AgeField = Years(years: int) | NotANumber | NotAvailable

  /** The patient values the handler computes. Name, age and gender are printed; the date of
      birth only decides the age and is not printed. */
  datatype Demographics = Demographics(name: string, dob: string, age: AgeField, gender: string)

  /** The patient values for the signed-in user (if any): name, date of birth and gender fall
      back to `N/A`; the age is `N/A` when the date of birth is, `NaN` when it does not parse,
      and otherwise the current year minus the birth year. */
  function DemographicsOf(user: Option<Patient>, currentYear: int, birthYear: Option<int>): (d: Demographics)
    ensures d.name != "" && d.dob != "" && d.gender != ""
    ensures d.name == (if user.Some? then OrNotAvailable(user.value.name) else "N/A")
    ensures d.dob == (if user.Some? then OrNotAvailable(user.value.dob) else "N/A")
    ensures d.gender == (if user.Some? then OrNotAvailable(user.value.gender) else "N/A")
    ensures d.age.NotAvailable? <==> d.dob == "N/A"
    ensures d.age.NotANumber? <==> d.dob != "N/A" && birthYear.None?
    ensures d.age.Years? ==> d.age.years == currentYear - birthYear.value
  {
    var name := if user.Some? then OrNotAvailable(user.value.name) else "N/A";
    var dob := if user.Some? then OrNotAvailable(user.value.dob) else "N/A";
    var gender := if user.Some? then OrNotAvailable(user.value.gender) else "N/A";
    var age :=
      if dob == "N/A" then NotAvailable
      else if birthYear.None? then NotANumber
      else Years(currentYear - birthYear.value);
    Demographics(name, dob, age, gender)
  }

  /** The age is a number exactly for a signed-in user whose date of birth is neither empty
      nor `N/A` and parses; it is then the difference of the calendar years only. */
  lemma AgeIsYearsIff(user: Option<Patient>, currentYear: int, birthYear: Option<int>)
    ensures DemographicsOf(user, currentYear, birthYear).age.Years?
        <==> user.Some? && user.value.dob != "" && user.value.dob != "N/A" && birthYear.Some?
    ensures DemographicsOf(user, currentYear, birthYear).age.Years? ==>
      DemographicsOf(user, currentYear, birthYear).age.years == currentYear - birthYear.value
  {
  }

  /** Without a signed-in user every patient line is `N/A`. */
  lemma NoUserNotAvailable(currentYear: int, birthYear: Option<int>)
    ensures DemographicsOf(None, currentYear, birthYear) == Demographics("N/A", "N/A", NotAvailable, "N/A")
  {
  }

  /** The prescriber name the handler computes: the demo doctor by id, a placeholder for anyone
      else, and a third text when nobody is signed in. The document never prints it: its
      signature block is the bare label `SignatureLabel`. */
  function PrescriberName(user: Option<Patient>): (r: string)
    ensures user.None? <==> r == "N/A Doctor"
    ensures user.Some? ==> (r == "Dr. Smith (Cardiologist)" <==> user.value.id == "DR-98765")
    ensures user.Some? && user.value.id != "DR-98765" ==> r == "PRESCRIBER NAME"
  {
    if user.None? then "N/A Doctor"
    else if user.value.id == "DR-98765" then "Dr. Smith (Cardiologist)"
    else "PRESCRIBER NAME"
  }

  // ---- The document ----

  const SignatureLabel := "Prescriber's Signature"

  /** The values the document places: the date and record id in the header, the patient's
      name, age and gender, the vitals, the clinical text, the Rx block, the signature label,
      and the name the file is saved under. */
  datatype PrescriptionDoc = PrescriptionDoc(
    date: string,
    recordId: string,
    name: string,
    age: AgeField,
    gender: string,
    vitals: Vitals.VitalSigns,
    clinical: string,
    rx: RxBlock,
    signature: string,
    fileName: string)

  /** The document for the given patient values, vitals and split summary. */
  function Assemble(currentDate: string, recordId: string, d: Demographics, vitals: Vitals.VitalSigns,
                    clinical: string, medication: string): (doc: PrescriptionDoc)
    ensures doc.date == currentDate && doc.recordId == recordId && doc.fileName == PdfFileName(recordId)
    ensures doc.name == d.name && doc.age == d.age && doc.gender == d.gender
    ensures doc.vitals == vitals && doc.clinical == clinical && doc.rx == RxBlockFor(medication)
    ensures doc.signature == SignatureLabel
  {
    PrescriptionDoc(currentDate, recordId, d.name, d.age, d.gender, vitals, clinical,
                    RxBlockFor(medication), SignatureLabel, PdfFileName(recordId))
  }

  /** Building the document: when the SpO2 look-up fails no document is saved; otherwise the
      header, the patient values, the vitals, the split summary, the Rx block and the file name
      are assembled. */
  method DownloadPdf(summary: string, recordId: string, user: Option<Patient>, currentDate: string,
                     currentYear: int, birthYear: Option<int>)
    returns (r: Result<PrescriptionDoc, Vitals.VitalError>)
    ensures r.Failure? <==> Vitals.GetVital(Vitals.SpO2, summary).Failure?
    ensures r.Success? ==>
      var split := Medication.SplitAt(summary, Medication.FirstListed(ToLower(summary)));
      var d := DemographicsOf(user, currentYear, birthYear);
      && r.value.date == currentDate && r.value.recordId == recordId
      && r.value.fileName == PdfFileName(recordId)
      && r.value.clinical == split.0
      && r.value.rx == RxBlockFor(split.1)
      && r.value.name == d.name && r.value.age == d.age && r.value.gender == d.gender
      && r.value.signature == SignatureLabel
      && Success(r.value.vitals.bp) == Vitals.GetVital(Vitals.BP, summary)
      && Success(r.value.vitals.height) == Vitals.GetVital(Vitals.Height, summary)
      && Success(r.value.vitals.weight) == Vitals.GetVital(Vitals.Weight, summary)
      && (r.value.vitals.spo2 == Vitals.Placeholder(Vitals.SpO2) <==> Vitals.Unmatched(Vitals.SpO2, summary))
      && (!Vitals.Unmatched(Vitals.SpO2, summary) ==> r.value.vitals.spo2 == "spo2%" || r.value.vitals.spo2 == "saturation%")
      && (r.value.vitals.pulse == Vitals.Placeholder(Vitals.Pulse) <==> Vitals.Unmatched(Vitals.Pulse, summary))
      && (!Vitals.Unmatched(Vitals.Pulse, summary) ==> r.value.vitals.pulse == " bpm")
  {
    var demographics := DemographicsOf(user, currentYear, birthYear);
    var vitals := Vitals.ExtractVitals(summary);
    if vitals.Failure? {
      return Failure(vitals.error);
    }
    var clinical, medication := Medication.SplitMedication(summary);
    r := Success(Assemble(currentDate, recordId, demographics, vitals.value, clinical, medication));
  }

  /** The document as the code evidently intends it: the vitals are the readings, so the
      download never fails, and the summary is cut at the earliest marker. */
  method DownloadPdfCorrected(summary: string, recordId: string, user: Option<Patient>, currentDate: string,
                              currentYear: int, birthYear: Option<int>)
    returns (doc: PrescriptionDoc)
    ensures var split := Medication.SplitAt(summary, Medication.Earliest(ToLower(summary), Medication.MedKeywords));
      var d := DemographicsOf(user, currentYear, birthYear);
      && doc.date == currentDate && doc.recordId == recordId
      && doc.fileName == PdfFileName(recordId)
      && doc.clinical == split.0
      && doc.rx == RxBlockFor(split.1)
      && doc.name == d.name && doc.age == d.age && doc.gender == d.gender
      && doc.signature == SignatureLabel
      && Vitals.ShowsReadings(doc.vitals, summary)
  {
    var demographics := DemographicsOf(user, currentYear, birthYear);
    var vitals := Vitals.ExtractReadings(summary);
    var clinical, medication := Medication.SplitMedicationEarliest(summary);
    doc := Assemble(currentDate, recordId, demographics, vitals, clinical, medication);
  }
}
