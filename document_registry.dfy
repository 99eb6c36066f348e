/**
 * The backend's in-memory document registry (app.py): the `pdf_data` dictionary from a
 * document id to its file name and question-answering chain, the upload endpoint that
 * validates a request and inserts one entry, the chat endpoint that looks an id up,
 * and the listing endpoint.  Flask, uuid, werkzeug and langchain are not modelled:
 * the fresh id, `secure_filename`, `process_pdf` and `handle_chat` are parameters.
 */
module DocumentRegistry {
  import opened Wrappers

  const UploadFolder := "uploads"
  const NoFilePart := "No file part"
  const NoSelectedFile := "No selected file"
  const InvalidFileType := "Invalid file type. Please upload a PDF."
  const UploadedMessage := "File uploaded and processed successfully"
  const InvalidPdfId := "Invalid PDF ID"

  /** A part of a multipart upload; only its file name matters here. */
  datatype FilePart = FilePart(filename: string)

  /** The question-answering chain `process_pdf` builds, as an opaque handle. */
  datatype QaChain = QaChain(handle: nat)

  /** The value `pdf_data` holds per id. */
  datatype PdfRecord = PdfRecord(filename: string, chain: QaChain)

  /** One element of the `/pdfs` reply: `{id, filename}`. */
  datatype Listing = Listing(id: string, filename: string)

  /** The JSON bodies the endpoints return; `InternalServerError` is Flask's page for an uncaught exception. */
  datatype Body =
    | ErrorBody(error: string)
    | UploadedBody(message: string, pdfId: string)
    | AnswerBody(response: string)
    | ListBody(pdfs: seq<Listing>)
    | InternalServerError

  datatype Response = Response(code: int, body: Body)

  // ---------------------------------------------------------------------------
  // The registry: a Python dictionary, which keeps its keys in insertion order
  // ---------------------------------------------------------------------------

  datatype Table = Table(records: map<string, PdfRecord>, order: seq<string>)

  /** `order` lists every key of `records` exactly once. */
  ghost predicate WellFormed(t: Table) {
    && (forall i, j :: 0 <= i < j < |t.order| ==> t.order[i] != t.order[j])
    && (forall k :: k in t.records <==> k in t.order)
  }

  function Empty(): (t: Table)
    ensures WellFormed(t) && t.records == map[]
  {
    Table(map[], [])
  }

  /**
   * `pdf_data[k] = v`: a new key goes to the end of the order, an existing key keeps
   * its place and gets the new value.
   */
  function Insert(t: Table, k: string, v: PdfRecord): (u: Table)
    requires WellFormed(t)
    ensures WellFormed(u)
    ensures k in u.records && u.records[k] == v
    ensures forall j :: j != k ==> (j in u.records <==> j in t.records)
    ensures forall j :: j != k && j in t.records ==> u.records[j] == t.records[j]
    ensures |t.order| <= |u.order| && u.order[..|t.order|] == t.order
  {
    Table(t.records[k := v], if k in t.records then t.order else t.order + [k])
  }

  /** Inserting under a fresh id grows the table by exactly that one entry, at the end. */
  lemma InsertFresh(t: Table, k: string, v: PdfRecord)
    requires WellFormed(t) && k !in t.records
    ensures |Insert(t, k, v).records| == |t.records| + 1
    ensures Insert(t, k, v).order == t.order + [k]
  {
    assert Insert(t, k, v).records.Keys == t.records.Keys + {k};
  }

  // ---------------------------------------------------------------------------
  // The file-type check
  // ---------------------------------------------------------------------------

  /** `str.lower` on one character, for the ASCII letters. */
  function LowerChar(c: char): char {
    if 'A' <= c <= 'Z' then (c as int + 32) as char else c
  }

  function Lower(s: string): string {
    if s == [] then [] else [LowerChar(s[0])] + Lower(s[1..])
  }

  lemma {:induction false} LowerAt(s: string)
    ensures |Lower(s)| == |s|
    ensures forall i :: 0 <= i < |s| ==> Lower(s)[i] == LowerChar(s[i])
  {
    if s != [] {
      LowerAt(s[1..]);
    }
  }

  predicate EndsWith(s: string, suffix: string) {
    |suffix| <= |s| && s[|s| - |suffix|..] == suffix
  }

  /** `filename.lower().endswith('.pdf')`. */
  predicate IsPdfName(filename: string) {
    EndsWith(Lower(filename), ".pdf")
  }

  /** The check accepts exactly the names ending in a dot and P, D, F in either case. */
  lemma PdfNameIgnoresCase(name: string)
    ensures IsPdfName(name) <==>
      && |name| >= 4
      && name[|name| - 4] == '.'
      && (name[|name| - 3] == 'p' || name[|name| - 3] == 'P')
      && (name[|name| - 2] == 'd' || name[|name| - 2] == 'D')
      && (name[|name| - 1] == 'f' || name[|name| - 1] == 'F')
  {
    LowerAt(name);
    var n := |name|;
    if n >= 4 {
      var tail := Lower(name)[n - 4..];
      assert tail[0] == LowerChar(name[n - 4]) && tail[1] == LowerChar(name[n - 3]);
      assert tail[2] == LowerChar(name[n - 2]) && tail[3] == LowerChar(name[n - 1]);
      if tail == ".pdf" {
        assert tail[1] == 'p' && tail[2] == 'd' && tail[3] == 'f';
      }
    }
  }

  lemma PdfNameExamples()
    ensures IsPdfName("Report.PDF") && IsPdfName("notes.Pdf")
    ensures !IsPdfName("notes.txt") && !IsPdfName("pdf") && !IsPdfName("report.pdf.exe")
  {
    PdfNameIgnoresCase("Report.PDF");
    PdfNameIgnoresCase("notes.Pdf");
    PdfNameIgnoresCase("notes.txt");
    PdfNameIgnoresCase("pdf");
    PdfNameIgnoresCase("report.pdf.exe");
  }

  // ---------------------------------------------------------------------------
  // POST /upload
  // ---------------------------------------------------------------------------

  /**
   * The guards of `upload_file`, in order: the `file` part must be present, its name
   * non-empty, and its name a PDF name.  Success carries the raw file name.
   */
  function CheckUpload(files: map<string, FilePart>): (r: Result<string, Response>)
    ensures r.Success? <==> "file" in files && files["file"].filename != "" && IsPdfName(files["file"].filename)
    ensures r.Success? ==> r.value == files["file"].filename
    ensures r.Failure? ==> r.error.code == 400 && r.error.body.ErrorBody?
    ensures "file" !in files ==> r == Failure(Response(400, ErrorBody(NoFilePart)))
    ensures "file" in files && files["file"].filename == "" ==> r == Failure(Response(400, ErrorBody(NoSelectedFile)))
    ensures "file" in files && files["file"].filename != "" && !IsPdfName(files["file"].filename) ==>
      r == Failure(Response(400, ErrorBody(InvalidFileType)))
  {
    if "file" !in files then Failure(Response(400, ErrorBody(NoFilePart)))
    else if files["file"].filename == "" then Failure(Response(400, ErrorBody(NoSelectedFile)))
    else if IsPdfName(files["file"].filename) then Success(files["file"].filename)
    else Failure(Response(400, ErrorBody(InvalidFileType)))
  }

  /** `os.path.join(UPLOAD_FOLDER, f"{pdf_id}_{filename}")`. */
  function FilePath(pdfId: string, filename: string): string {
    UploadFolder + "/" + pdfId + "_" + filename
  }

  class Registry {
    /** `pdf_data`. */
    var pdfData: Table

    ghost predicate Valid()
      reads this
    {
      WellFormed(pdfData)
    }

    constructor ()
      ensures Valid() && pdfData == Empty()
    {
      pdfData := Empty();
    }

    /**
     * `upload_file`.  `freshId` is the `uuid4()` drawn for this request,
     * `secureFilename` is werkzeug's `secure_filename`, and `processPdf` is
     * `process_pdf` on the saved file's path and the id, which may raise.
     */
    method UploadFile(files: map<string, FilePart>, freshId: string, secureFilename: string -> string,
                      processPdf: (string, string) -> Result<QaChain, string>)
      returns (resp: Response)
      requires Valid()
      modifies this
      ensures Valid()
      ensures CheckUpload(files).Failure? ==> resp == CheckUpload(files).error && pdfData == old(pdfData)
      ensures CheckUpload(files).Success? ==>
        var filename := secureFilename(files["file"].filename);
        match processPdf(FilePath(freshId, filename), freshId)
        case Failure(_) => resp == Response(500, InternalServerError) && pdfData == old(pdfData)
        case Success(chain) =>
          && resp == Response(200, UploadedBody(UploadedMessage, freshId))
          && pdfData == Insert(old(pdfData), freshId, PdfRecord(filename, chain))
      ensures resp.code != 200 ==> pdfData == old(pdfData)
    {
      if "file" !in files {
        return Response(400, ErrorBody(NoFilePart));
      }
      var file := files["file"];
      if file.filename == "" {
        return Response(400, ErrorBody(NoSelectedFile));
      }
      // `file` is truthy here, since its file name is not empty.
      if IsPdfName(file.filename) {
        var filename := secureFilename(file.filename);
        var pdfId := freshId;
        var path := FilePath(pdfId, filename);
        match processPdf(path, pdfId) {
          case Failure(_) =>
            // The exception escapes the view.
            return Response(500, InternalServerError);
          case Success(chain) =>
            pdfData := Insert(pdfData, pdfId, PdfRecord(filename, chain));
            return Response(200, UploadedBody(UploadedMessage, pdfId));
        }
      } else {
        return Response(400, ErrorBody(InvalidFileType));
      }
    }
  }

  // ---------------------------------------------------------------------------
  // POST /chat and GET /pdfs
  // ---------------------------------------------------------------------------

  /**
   * `chat` on the JSON body `body`: a missing `message` or `pdf_id` raises (500); an
   * unknown id is refused with 400; otherwise `handleChat` (`handle_chat`) is asked
   * with the stored chain, and its exception becomes a 500 with the message.
   */
  function Chat(t: Table, body: map<string, string>, handleChat: (string, QaChain) -> Result<string, string>): (r: Response)
    ensures r.code == 200 || r.code == 400 || r.code == 500
    ensures "message" !in body || "pdf_id" !in body ==> r == Response(500, InternalServerError)
    ensures r == Response(400, ErrorBody(InvalidPdfId)) <==>
      "message" in body && "pdf_id" in body && body["pdf_id"] !in t.records
    ensures r.code == 200 <==>
      && "message" in body && "pdf_id" in body && body["pdf_id"] in t.records
      && handleChat(body["message"], t.records[body["pdf_id"]].chain).Success?
    ensures r.code == 200 ==>
      r.body == AnswerBody(handleChat(body["message"], t.records[body["pdf_id"]].chain).value)
    ensures && "message" in body && "pdf_id" in body && body["pdf_id"] in t.records
            && handleChat(body["message"], t.records[body["pdf_id"]].chain).Failure?
      ==> r == Response(500, ErrorBody(handleChat(body["message"], t.records[body["pdf_id"]].chain).error))
    ensures r.code == 500 && r.body.ErrorBody? ==>
      && "message" in body && "pdf_id" in body && body["pdf_id"] in t.records
      && handleChat(body["message"], t.records[body["pdf_id"]].chain) == Failure(r.body.error)
  {
    if "message" !in body || "pdf_id" !in body then Response(500, InternalServerError)
    else
      var userInput, pdfId := body["message"], body["pdf_id"];
      if pdfId !in t.records then Response(400, ErrorBody(InvalidPdfId))
      else
        match handleChat(userInput, t.records[pdfId].chain)
        case Success(response) => Response(200, AnswerBody(response))
        case Failure(e) => Response(500, ErrorBody(e))
  }

  /** An unknown id is refused before the handler is consulted: its answer cannot matter. */
  lemma ChatUnknownIdSkipsHandler(t: Table, body: map<string, string>,
                                  h1: (string, QaChain) -> Result<string, string>,
                                  h2: (string, QaChain) -> Result<string, string>)
    requires "message" in body && "pdf_id" in body && body["pdf_id"] !in t.records
    ensures Chat(t, body, h1) == Chat(t, body, h2) == Response(400, ErrorBody(InvalidPdfId))
  {
  }

  /** `get_pdfs`: one `{id, filename}` per entry, in insertion order, and nothing else. */
  function ListPdfs(t: Table): (r: Response)
    requires WellFormed(t)
    ensures r.code == 200 && r.body.ListBody?
    ensures |r.body.pdfs| == |t.records| == |t.order|
    ensures forall i :: 0 <= i < |r.body.pdfs| ==> r.body.pdfs[i].id == t.order[i]
    ensures forall i :: 0 <= i < |r.body.pdfs| ==>
      r.body.pdfs[i].id in t.records && r.body.pdfs[i].filename == t.records[r.body.pdfs[i].id].filename
    ensures forall i, j :: 0 <= i < j < |r.body.pdfs| ==> r.body.pdfs[i].id != r.body.pdfs[j].id
    ensures forall k :: k in t.records ==> exists i :: 0 <= i < |r.body.pdfs| && r.body.pdfs[i].id == k
  {
    OrderCoversRecords(t);
    var pdfs := Listings(t);
    assert forall k :: k in t.records ==> exists i :: 0 <= i < |t.order| && t.order[i] == k && pdfs[i].id == k;
    Response(200, ListBody(pdfs))
  }

  /** The comprehension of `get_pdfs`. */
  function Listings(t: Table): seq<Listing>
    requires WellFormed(t)
  {
    seq(|t.order|, i requires 0 <= i < |t.order| => Listing(t.order[i], t.records[t.order[i]].filename))
  }

  /** The order of a well-formed table has one position per key. */
  lemma OrderCoversRecords(t: Table)
    requires WellFormed(t)
    ensures |t.order| == |t.records|
  {
    DistinctCardinality(t.order);
    assert (set k | k in t.order) == t.records.Keys;
  }

  lemma {:induction false} DistinctCardinality(s: seq<string>)
    requires forall i, j :: 0 <= i < j < |s| ==> s[i] != s[j]
    ensures |set k | k in s| == |s|
  {
    if s != [] {
      var last := s[|s| - 1];
      var init := s[..|s| - 1];
      DistinctCardinality(init);
      assert (set k | k in s) == (set k | k in init) + {last};
      assert last !in init;
    }
  }

  /** An accepted upload under a fresh id adds exactly its listing at the end. */
  lemma UploadThenList(t: Table, k: string, v: PdfRecord)
    requires WellFormed(t) && k !in t.records
    ensures ListPdfs(Insert(t, k, v)).body.pdfs == ListPdfs(t).body.pdfs + [Listing(k, v.filename)]
  {
    var u := Insert(t, k, v);
    InsertFresh(t, k, v);
    var before, after := Listings(t), Listings(u);
    assert |after| == |before| + 1;
    forall i | 0 <= i < |after|
      ensures after[i] == (before + [Listing(k, v.filename)])[i]
    {
      if i < |before| {
        assert u.order[i] == t.order[i];
      }
    }
    assert after == before + [Listing(k, v.filename)];
  }
}
