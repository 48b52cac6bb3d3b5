/** POST handling of an attendance mark, from
    src/frontend/WebServerAttendance.cpp: the checks a form body goes through
    before a record is handed to the repository, in the order they are made.

    The repository is given as whether one is configured and which records it
    accepts; `decodeFormValue` and today's date are parameters. */
module WebServerAttendance {
  import opened Wrappers
  import opened Text
  import opened Attendance
  import opened WebServer

  /** The text of a form field that runs from just after the first
      occurrence of `key` to the next '&' or the end of the body. */
  function RawField(body: string, key: string): Option<string> {
    match Find(body, key, 0)
    case None => None
    case Some(pos) =>
      var start := pos + |key|;
      match Find(body, "&", start)
      case None => Some(body[start..])
      case Some(stop) => Some(body[start..stop])
  }

  /** A field is found exactly when its key occurs; its text follows the
      first occurrence of the key, holds no '&', and is followed by '&' or
      ends the body. */
  lemma RawFieldMeaning(body: string, key: string) returns (start: nat)
    ensures RawField(body, key).None? <==> !Contains(body, key)
    ensures RawField(body, key).Some? ==>
      var v := RawField(body, key).value;
      && Find(body, key, 0) == Some(start - |key|)
      && start + |v| <= |body| && body[start..start + |v|] == v
      && (forall k :: 0 <= k < |v| ==> v[k] != '&')
      && (start + |v| == |body| || body[start + |v|] == '&')
  {
    var pos := Find(body, key, 0);
    if pos.None? {
      return 0;
    }
    start := pos.value + |key|;
    var stop := Find(body, "&", start);
    var v := RawField(body, key).value;
    forall k | 0 <= k < |v|
      ensures v[k] != '&'
    {
      assert body[start + k..start + k + 1] == [v[k]];
      assert !MatchAt(body, "&", start + k);
    }
    if stop.Some? {
      assert body[stop.value..stop.value + 1] == "&";
    }
  }

  /** What the handler decides before the repository is asked. */
  datatype MarkDecision = Refuse(statusCode: int, error: string) | Submit(record: AttendanceRecord)

  /** The checks of `handleAttendanceMark`, first failure wins: no
      repository (500), no student id (400), no status field (400), a status
      other than the three words (400). Otherwise the record carries the
      student id, the date (today when absent or empty) and the status. */
  function MarkDecisionOf(body: string, configured: bool, decode: string -> string, today: string): MarkDecision {
    if !configured then Refuse(500, "Attendance repository not configured")
    else
      var studentId := DirectoryValue(body);
      if studentId == [] then Refuse(400, "Missing studentId")
      else
        match RawField(body, "status=")
        case None => Refuse(400, "Missing status")
        case Some(rawStatus) =>
          var statusValue := decode(rawStatus);
          if statusValue !in StatusWords then Refuse(400, "Invalid status")
          else
            var dateIso := match RawField(body, "date=")
              case None => []
              case Some(rawDate) => decode(rawDate);
            var date := if dateIso == [] then today else dateIso;
            Submit(AttendanceRecord(studentId, date, StatusFromString(statusValue)))
  }

  function ErrorReply(error: string): string {
    "{\"success\":false,\"error\":\"" + error + "\"}"
  }

  const SuccessReply: string := "{\"success\":true}"

  /** The submitted record is well formed: a non-empty student id and a
      status that was one of the three words, written back as that word. A
      refusal is always a client error (400) or a server error (500), and the
      checks come in the order of the source. */
  lemma MarkDecisionMeaning(body: string, configured: bool, decode: string -> string, today: string)
    ensures var d := MarkDecisionOf(body, configured, decode, today);
      && (d.Refuse? ==> d.statusCode in {400, 500})
      && (!configured ==> d == Refuse(500, "Attendance repository not configured"))
      && (configured && DirectoryValue(body) == [] ==> d == Refuse(400, "Missing studentId"))
      && (configured && DirectoryValue(body) != [] && !Contains(body, "status=") ==> d == Refuse(400, "Missing status"))
      && ((configured && DirectoryValue(body) != [] && RawField(body, "status=").Some? &&
           decode(RawField(body, "status=").value) !in StatusWords) ==> d == Refuse(400, "Invalid status"))
      && (d.Submit? ==>
            && d.record.studentId == DirectoryValue(body) != []
            && RawField(body, "status=").Some?
            && StatusToString(d.record.status) == decode(RawField(body, "status=").value)
            && (today != [] ==> d.record.dateIso != [])
            && (!Contains(body, "date=") ==> d.record.dateIso == today))
  {
    var _ := RawFieldMeaning(body, "status=");
    var d := MarkDecisionOf(body, configured, decode, today);
    if d.Submit? {
      StatusRoundTrip(d.record.status, decode(RawField(body, "status=").value));
    }
  }

  /** The student id is read through the "directory=" key, so a form that
      names its field `studentId` is refused as having none. */
  lemma StudentIdKeyIsDirectory(decode: string -> string, today: string)
    ensures MarkDecisionOf("studentId=2023xxxxxxxx1&status=present", true, decode, today) ==
      Refuse(400, "Missing studentId")
  {
    var body := "studentId=2023xxxxxxxx1&status=present";
    CharAbsent(body, DirectoryKey, 8);
  }

  /** `handleAttendanceMark`. `statusCode` comes in as the caller set it and
      is left alone on success; `handedOver` is the record given to the
      repository, None when it was never called. */
  method HandleAttendanceMark(body: string, configured: bool, accepts: AttendanceRecord -> bool,
                              decode: string -> string, today: string, statusCodeIn: int)
    returns (reply: string, contentType: string, statusCode: int, handedOver: Option<AttendanceRecord>)
    ensures contentType == "application/json"
    ensures var d := MarkDecisionOf(body, configured, decode, today);
      && (d.Refuse? ==> handedOver == None && statusCode == d.statusCode && reply == ErrorReply(d.error))
      && (d.Submit? ==> handedOver == Some(d.record))
      && (d.Submit? && accepts(d.record) ==> statusCode == statusCodeIn && reply == SuccessReply)
      && (d.Submit? && !accepts(d.record) ==>
            statusCode == 500 && reply == ErrorReply("Failed to persist attendance record"))
  {
    contentType := "application/json";
    statusCode := statusCodeIn;
    handedOver := None;
    if !configured {
      statusCode := 500;
      reply := ErrorReply("Attendance repository not configured");
      return;
    }
    var studentId := ParseDirectory(body);
    if studentId == [] {
      statusCode := 400;
      reply := ErrorReply("Missing studentId");
      return;
    }
    var statusField := ReadField(body, "status=");
    if statusField.None? {
      statusCode := 400;
      reply := ErrorReply("Missing status");
      return;
    }
    var statusValue := decode(statusField.value);
    var status := Present;
    if statusValue == "present" {
      status := Present;
    } else if statusValue == "absent" {
      status := Absent;
    } else if statusValue == "leave" {
      status := Leave;
    } else {
      statusCode := 400;
      reply := ErrorReply("Invalid status");
      return;
    }
    var dateIso := [];
    var dateField := ReadField(body, "date=");
    if dateField.Some? {
      dateIso := decode(dateField.value);
    }
    if dateIso == [] {
      dateIso := today;
    }
    var record := AttendanceRecord(studentId, dateIso, status);
    handedOver := Some(record);
    if !accepts(record) {
      statusCode := 500;
      reply := ErrorReply("Failed to persist attendance record");
      return;
    }
    reply := SuccessReply;
  }

  /** The `find`/`substr` pair that cuts a field out of the body. */
  method ReadField(body: string, key: string) returns (field: Option<string>)
    ensures field == RawField(body, key)
  {
    var pos := Find(body, key, 0);
    if pos.None? {
      return None;
    }
    var start := pos.value + |key|;
    var stop := Find(body, "&", start);
    if stop.None? {
      field := Some(body[start..]);
    } else {
      field := Some(body[start..stop.value]);
    }
  }
}
