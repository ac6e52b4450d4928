/**
 * The fixed catalogue of registers a police station keeps: their ids,
 * English and Hindi names, and the schema of each record (field id,
 * labels, input type, whether it is required, the choices of a SELECT
 * field, and where a SELECT field draws its choices from another register).
 */
module Catalog {
  import opened Wrappers
  import opened Entities
  import Seqs

  const CrimeRegister: Register := Register("crime_register", "Crime Register", "अपराध रजिस्टर", [
      RegisterField("caseNumber", "Case Number", "अपराध क्रमांक", Text, true, [], [], None, None),
      RegisterField("dateRegistered", "Date Registered", "दर्ज दिनांक", Date, true, [], [], None, None),
      RegisterField("section", "Section", "धारा", Text, true, [], [], None, None),
      RegisterField("complainant", "Complainant Name & Address", "परिवादी का नाम व पता", TextArea, true, [], [], None, None),
      RegisterField("incidentLocation", "Incident Location/Date", "घटना स्थल/दिनांक", Text, true, [], [], None, None),
      RegisterField("caseDetails", "Brief Case Details", "संक्षिप्त विवरण", TextArea, true, [], [], None, None),
      RegisterField("investigatingOfficer", "Investigating Officer", "अनुसंधान अधिकारी", Text, true, [], [], None, None),
      RegisterField("accused", "Accused Name & Address", "अभियुक्त का नाम व पता", TextArea, false, [], [], None, None),
      RegisterField("disposal_type", "Disposal Type", "निस्तारण प्रकार", Select, true,
        ["Pending", "157-B", "Adam Vaku (Jhooth)", "Adam Vaku (Anya)", "Adam Pata", "Adam Saboot", "299 CrPC", "Challan"],
        ["लम्बित", "157-बी", "अदम वकू (झूठ)", "अदम वकू (अन्य)", "अदम पता", "अदम सबूत", "299 द.प्र.सं", "चालान"],
        None, None),
      RegisterField("result", "Result/Court Decision", "परिणाम/न्यायालय निर्णय", TextArea, false, [], [], None, None),
      RegisterField("arrested_male", "Arrested (Male)", "गिरफ्तार (पुरुष)", Number, false, [], [], None, None),
      RegisterField("arrested_female", "Arrested (Female)", "गिरफ्तार (महिला)", Number, false, [], [], None, None),
      RegisterField("stolen_property_value", "Value of Stolen Property", "माल मसरूखा", Number, false, [], [], None, None),
      RegisterField("recovered_property_value", "Value of Recovered Property", "माल बरामद", Number, false, [], [], None, None)
    ])

  const InsadadiRegister: Register := Register("insadadi_register", "Insadadi Register (Preventive Action)", "इंसदादी रजिस्टर (निरोधात्मक कार्यवाही)", [
      RegisterField("month", "Month", "माह", Select, true,
        ["January", "February", "March", "April", "May", "June", "July", "August", "September", "October", "November", "December"],
        ["जनवरी", "फरवरी", "मार्च", "अप्रैल", "मई", "जून", "जुलाई", "अगस्त", "सितंबर", "अक्टूबर", "नवंबर", "दिसंबर"],
        None, None),
      RegisterField("actionTitle", "Preventive Action Title", "निरोधात्मक कार्यवाही शीर्षक", Text, true, [], [], None, None),
      RegisterField("monthIstgasa", "Month Istgasa", "माह इस्तगासा", Number, true, [], [], None, None),
      RegisterField("monthPaband", "Persons Restricted in Month", "माह में पाबंद व्यक्ति", Number, true, [], [], None, None),
      RegisterField("yearIstgasa", "Year Istgasa", "वर्ष में इस्तगासा", Number, true, [], [], None, None),
      RegisterField("yearPaband", "Persons Restricted in Year", "वर्ष में पाबंद व्यक्ति", Number, true, [], [], None, None)
    ])

  const MalkhanaRegister: Register := Register("malkhana_register", "Malkhana Register", "मालखाना रजिस्टर", [
      RegisterField("caseNumber", "Case Number", "अपराध क्रमांक", Text, true, [], [], None, None),
      RegisterField("itemNumber", "Item Number", "आइटम नंबर", Text, true, [], [], None, None),
      RegisterField("itemDescription", "Item Description", "आइटम का विवरण", TextArea, true, [], [], None, None),
      RegisterField("dateReceived", "Date of Receipt", "प्राप्ति की दिनांक", Date, true, [], [], None, None),
      RegisterField("investigatingOfficer", "Investigating Officer", "अनुसंधान अधिकारी", Text, true, [], [], None, None),
      RegisterField("sentToFSLDate", "Date Sent to FSL", "एफएसएल भेजने की दिनांक", Date, false, [], [], None, None),
      RegisterField("receivedFromFSLDate", "Date Received from FSL", "एफएसएल से प्राप्ति की दिनांक", Date, false, [], [], None, None),
      RegisterField("handoverDate", "Date of Handover", "सुपुर्दगी की दिनांक", Date, false, [], [], None, None)
    ])

  const IndexRegister: Register := Register("index_register", "Index Register", "इंडेक्स रजिस्टर", [
      RegisterField("indexPageNumber", "Index Page No.", "इंडेक्स पृष्ठ संख्या", Text, true, [], [], None, None),
      RegisterField("accusedName", "Accused Name", "अभियुक्त का नाम", Text, true, [], [], None, None),
      RegisterField("fatherName", "Father's Name", "पिता का नाम", Text, true, [], [], None, None),
      RegisterField("address", "Address", "पता", TextArea, true, [], [], None, None),
      RegisterField("caseDetails", "Case Details (No, Date, Section, PS)", "केस विवरण (नं, दिनांक, धारा, थाना)", TextArea, true, [], [], None, None),
      RegisterField("result", "Result/Court Decision", "परिणाम/न्यायालय निर्णय", Text, false, [], [], None, None)
    ])

  const PostingList: Register := Register("posting_list", "Posting List", "तैनाती सूची", [
      RegisterField("officerName", "Officer/Staff Name", "अधिकारी/कर्मचारी का नाम", Text, true, [], [], None, None),
      RegisterField("fatherName", "Father's Name", "पिता का नाम", Text, false, [], [], None, None),
      RegisterField("address", "Address", "पता", TextArea, true, [], [], None, None),
      RegisterField("orderNumberDate", "Order No. & Date", "आदेश क्रमांक एवं दिनांक", Text, true, [], [], None, None),
      RegisterField("mobileNumber", "Mobile Number", "मोबाइल नंबर", Text, true, [], [], None, None),
      RegisterField("ssoId", "SSO ID", "एसएसओ आईडी", Text, true, [], [], None, None),
      RegisterField("otherDetails", "Other Details", "अन्य विवरण", TextArea, false, [], [], None, None)
    ])

  const PermanentWarrantyList: Register := Register("permanent_warranty_list", "Permanent Warranty List", "स्थाई वारंटी सूची", [
      RegisterField("warranteeName", "Warrantee Name", "वारंटी का नाम", Text, true, [], [], None, None),
      RegisterField("fatherName", "Father's Name", "पिता का नाम", Text, false, [], [], None, None),
      RegisterField("address", "Address", "पता", TextArea, true, [], [], None, None),
      RegisterField("caseNumber", "Case Number", "अपराध क्रमांक", Text, true, [], [], None, None),
      RegisterField("section", "Section", "धारा", Text, true, [], [], None, None),
      RegisterField("courtCaseNumber", "Court Case Number", "न्यायालय केस नंबर", Text, true, [], [], None, None),
      RegisterField("courtName", "Court Name", "न्यायालय का नाम", Text, true, [], [], None, None)
    ])

  const HsList: Register := Register("hs_list", "HS List", "एचएस सूची", [
      RegisterField("hsName", "HS Name", "एचएस का नाम", Text, true, [], [], None, None),
      RegisterField("fatherName", "Father's Name", "पिता का नाम", Text, false, [], [], None, None),
      RegisterField("address", "Address", "पता", TextArea, true, [], [], None, None),
      RegisterField("crimeDetails", "Crime Details (Case No, Date, Section, PS, Result)", "अपराध विवरण (केस नं, दिनांक, धारा, थाना, परिणाम)", TextArea, true, [], [], None, None)
    ])

  const DutyRegister: Register := Register("duty_register", "Duty Register", "ड्यूटी रजिस्टर", [
      RegisterField("officerId", "Officer/Staff Name", "अधिकारी/कर्मचारी का नाम", Select, true,
        [],
        [],
        Some("posting_list"), Some("officerName")),
      RegisterField("presence", "Presence", "उपस्थिति", Select, true,
        ["Present", "Absent"],
        ["हाजिर", "गैरहाजिर"],
        None, None),
      RegisterField("dutyType", "Duty Type", "ड्यूटी का प्रकार", Select, true,
        ["General", "Station Officer", "Surveillance", "Evening Patrol", "Night LC", "Mail Duty", "Outstation", "Reserve", "Night Sigma", "Leave", "Absent", "CCTN Operator", "Window Operator", "Investigation Assistant", "Malkhana Assistant", "Reader", "Intelligence I", "Intelligence II", "HM Admin", "HM Malkhana"],
        ["सामान्य", "थानाधिकारी", "निगरानी", "सायंकालीन पैदल गश्त", "रात्रि एलसी", "डाक ड्यूटी", "बाहर ड्यूटी", "बचत", "रात्रि सिग्मा", "अवकाश", "गैर हाजिर", "सीसीटीएन ऑपरेटर", "विन्डो ऑपरेटर", "अनुसंधान सहायक", "मालखाना सहायक", "रीडर", "आसूचना प्रथम", "आसूचना द्वितीय", "एच.एम. प्रशासन", "एच.एम. मालखाना"],
        None, None),
      RegisterField("dutyDate", "Date", "दिनांक", Date, true, [], [], None, None),
      RegisterField("details", "Details / Remarks", "विवरण / टिप्पणी", TextArea, false, [], [], None, None)
    ])

  /** The catalogue, in display order. */
  const Registers: seq<Register> := [
    CrimeRegister, InsadadiRegister, MalkhanaRegister, IndexRegister,
    PostingList, PermanentWarrantyList, HsList, DutyRegister
  ]

  /** `registers.find(r => r.id === id)`. */
  function FindRegister(id: string): (r: Option<Register>)
    ensures r.Some? ==> r.value in Registers && r.value.id == id
    ensures r.None? <==> forall k :: 0 <= k < |Registers| ==> Registers[k].id != id
  {
    Seqs.Find(Registers, (reg: Register) => reg.id == id)
  }

  /** Register ids identify registers. */
  lemma RegisterIdsDistinct()
    ensures forall i, j :: 0 <= i < j < |Registers| ==> Registers[i].id != Registers[j].id
  {
  }

  /** A field whose choices come from another register: the officer list of the posting list. */
  predicate DrawsOnPostingList(f: RegisterField) {
    f.id == "officerId" && f.optionsSourceRegisterId == Some("posting_list") &&
    f.optionsSourceDisplayField == Some("officerName")
  }

  /** No field of `r` draws its choices from another register, except as `DrawsOnPostingList` says. */
  predicate SourcedFieldsAreOfficers(r: Register) {
    forall k :: 0 <= k < |r.fields| && r.fields[k].optionsSourceRegisterId.Some? ==>
      r == DutyRegister && DrawsOnPostingList(r.fields[k])
  }

  /** Every choice of every field of `r` has a Hindi label at the same position. */
  predicate Translated(r: Register) {
    forall k :: 0 <= k < |r.fields| ==> |r.fields[k].optionsHi| == |r.fields[k].options|
  }

  // One lemma per register keeps each proof to the literals of one register.

  lemma CrimeRegisterShape()
    ensures Translated(CrimeRegister) && SourcedFieldsAreOfficers(CrimeRegister)
  {
  }

  lemma InsadadiRegisterShape()
    ensures Translated(InsadadiRegister) && SourcedFieldsAreOfficers(InsadadiRegister)
  {
  }

  lemma MalkhanaRegisterShape()
    ensures Translated(MalkhanaRegister) && SourcedFieldsAreOfficers(MalkhanaRegister)
  {
  }

  lemma IndexRegisterShape()
    ensures Translated(IndexRegister) && SourcedFieldsAreOfficers(IndexRegister)
  {
  }

  lemma PostingListShape()
    ensures Translated(PostingList) && SourcedFieldsAreOfficers(PostingList)
  {
  }

  lemma PermanentWarrantyListShape()
    ensures Translated(PermanentWarrantyList) && SourcedFieldsAreOfficers(PermanentWarrantyList)
  {
  }

  lemma HsListShape()
    ensures Translated(HsList) && SourcedFieldsAreOfficers(HsList)
  {
  }

  lemma DutyRegisterShape()
    ensures Translated(DutyRegister) && SourcedFieldsAreOfficers(DutyRegister)
  {
  }

  /** Every register's choices are translated and drawn only as `DrawsOnPostingList` says. */
  lemma RegistersShape()
    ensures forall i :: 0 <= i < |Registers| ==> Translated(Registers[i]) && SourcedFieldsAreOfficers(Registers[i])
  {
    CrimeRegisterShape();
    InsadadiRegisterShape();
    MalkhanaRegisterShape();
    IndexRegisterShape();
    PostingListShape();
    PermanentWarrantyListShape();
    HsListShape();
    DutyRegisterShape();
  }

  /** Every SELECT choice has a Hindi label at the same position. */
  lemma ChoicesTranslated()
    ensures forall i, k :: 0 <= i < |Registers| && 0 <= k < |Registers[i].fields| ==>
      |Registers[i].fields[k].optionsHi| == |Registers[i].fields[k].options|
  {
    RegistersShape();
    forall i, k | 0 <= i < |Registers| && 0 <= k < |Registers[i].fields|
      ensures |Registers[i].fields[k].optionsHi| == |Registers[i].fields[k].options|
    {
      assert Translated(Registers[i]);
    }
  }

  /** The posting list is found by its id. */
  lemma PostingListFound()
    ensures FindRegister("posting_list") == Some(PostingList)
  {
    assert Registers[4].id == "posting_list";
    var r := FindRegister("posting_list");
    var k :| 0 <= k < |Registers| && Registers[k] == r.value;
    RegisterIdsDistinct();
  }

  /**
   * The one field with choices drawn from another register is the officer
   * of the duty register, which lists the officer names of the posting list.
   */
  lemma DynamicChoiceSources()
    ensures forall i :: 0 <= i < |Registers| ==> SourcedFieldsAreOfficers(Registers[i])
    ensures DrawsOnPostingList(DutyRegister.fields[0])
    ensures FindRegister("posting_list") == Some(PostingList)
    ensures PostingList.fields[0].id == "officerName"
  {
    RegistersShape();
    PostingListFound();
  }
}
