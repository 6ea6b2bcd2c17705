/**
 `importContacts` (controllers/contactsController.js): the checks on the
 upload and the form, the mapping from parsed CSV rows to contact
 documents, and the unordered bulk insert into a Contact collection that
 has a unique index on `(phone, company)`. The CSV parser and the
 temporary file are not modelled: the rows arrive already parsed.
 */
module ContactImport {
  import opened Common
  import opened Records

  /** One parsed CSV row; a missing column is "". */
  datatype Row = Row(phone: string, name: string)

  /** Why an import was refused before any row was read (both answer 400). */
  datatype ImportError = NoFileUploaded | MissingIds {
    function Message(): string {
      match this
      case NoFileUploaded => "No file uploaded."
      case MissingIds => "Company ID and Segment ID are required."
    }
  }

  /** The collection after the import and the count reported as imported. */
  datatype ImportReport = ImportReport(contacts: seq<Contact>, inserted: nat)

  /** The contact document built from a row that has a phone. */
  function ContactOf(row: Row, companyId: string, segmentId: string): Contact {
    Contact(row.name, row.phone, companyId, [segmentId])
  }

  /** The `data` handler over all rows: rows without a phone are skipped, the others mapped in order. */
  function BuildContacts(rows: seq<Row>, companyId: string, segmentId: string): (r: seq<Contact>)
    ensures |r| <= |rows|
    ensures forall i :: 0 <= i < |r| ==> r[i].company == companyId && r[i].segments == [segmentId] && r[i].phone != ""
    decreases |rows|
  {
    if rows == [] then []
    else
      var rest := BuildContacts(rows[1..], companyId, segmentId);
      if rows[0].phone != "" then [ContactOf(rows[0], companyId, segmentId)] + rest else rest
  }

  /** The mapping works row by row: the contacts of `a + b` are those of `a` followed by those of `b`. */
  lemma {:induction false} BuildContactsAppend(a: seq<Row>, b: seq<Row>, companyId: string, segmentId: string)
    ensures BuildContacts(a + b, companyId, segmentId)
         == BuildContacts(a, companyId, segmentId) + BuildContacts(b, companyId, segmentId)
    decreases |a|
  {
    if a == [] {
      assert a + b == b;
    } else {
      assert (a + b)[1..] == a[1..] + b;
      BuildContactsAppend(a[1..], b, companyId, segmentId);
    }
  }

  /** One row yields exactly one contact, carrying its phone and name (or ''), unless its phone is missing. */
  lemma BuildContactsOneRow(row: Row, companyId: string, segmentId: string)
    ensures row.phone == "" ==> BuildContacts([row], companyId, segmentId) == []
    ensures row.phone != "" ==> BuildContacts([row], companyId, segmentId)
                                == [Contact(row.name, row.phone, companyId, [segmentId])]
  {
    assert [row][1..] == [];
  }

  /** The number of contacts built is the number of rows that have a phone. */
  function RowsWithPhone(rows: seq<Row>): nat
    decreases |rows|
  {
    if rows == [] then 0 else (if rows[0].phone != "" then 1 else 0) + RowsWithPhone(rows[1..])
  }

  lemma {:induction false} BuildContactsCount(rows: seq<Row>, companyId: string, segmentId: string)
    ensures |BuildContacts(rows, companyId, segmentId)| == RowsWithPhone(rows)
    decreases |rows|
  {
    if rows != [] {
      BuildContactsCount(rows[1..], companyId, segmentId);
    }
  }

  /** The built contacts as the schema casts them (`name` and `phone` trimmed). */
  function CastAll(batch: seq<Contact>): (r: seq<Contact>)
    ensures |r| == |batch|
    ensures forall i :: 0 <= i < |batch| ==> r[i] == CastContact(batch[i])
    decreases |batch|
  {
    if batch == [] then [] else [CastContact(batch[0])] + CastAll(batch[1..])
  }

  /**
   The insert of already cast documents, one at a time: a document failing
   the schema's required fields is skipped, and so is one whose key is
   already stored or was inserted earlier in the batch. Returns the new
   collection and the inserted count.
   */
  function InsertValid(store: seq<Contact>, docs: seq<Contact>): ImportReport
    decreases |docs|
  {
    if docs == [] then ImportReport(store, 0)
    else
      var c := docs[0];
      if ContactValid(c) && ContactKey(c) !in Keys(store) then
        var rest := InsertValid(store + [c], docs[1..]);
        ImportReport(rest.contacts, rest.inserted + 1)
      else
        InsertValid(store, docs[1..])
  }

  /** `Contact.insertMany(docs, { ordered: false })`: every document is cast, then inserted if it may be. */
  function InsertUnordered(store: seq<Contact>, batch: seq<Contact>): ImportReport {
    InsertValid(store, CastAll(batch))
  }

  lemma KeysSnoc(store: seq<Contact>, c: Contact)
    ensures Keys(store + [c]) == Keys(store) + {ContactKey(c)}
  {
    var s := store + [c];
    forall k | k in Keys(s)
      ensures k in Keys(store) + {ContactKey(c)}
    {
      var i :| 0 <= i < |s| && ContactKey(s[i]) == k;
      if i < |store| {
        assert s[i] == store[i];
      }
    }
    forall k | k in Keys(store)
      ensures k in Keys(s)
    {
      var i :| 0 <= i < |store| && ContactKey(store[i]) == k;
      assert s[i] == store[i];
    }
    assert s[|store|] == c;
  }

  /** The insert only appends, at most one document per built contact, and reports how many it appended. */
  lemma {:induction false} InsertValidAppends(store: seq<Contact>, docs: seq<Contact>)
    ensures var r := InsertValid(store, docs);
            && store <= r.contacts
            && |r.contacts| == |store| + r.inserted
            && r.inserted <= |docs|
    decreases |docs|
  {
    if docs != [] {
      var c := docs[0];
      if ContactValid(c) && ContactKey(c) !in Keys(store) {
        InsertValidAppends(store + [c], docs[1..]);
      } else {
        InsertValidAppends(store, docs[1..]);
      }
    }
  }

  /** A collection whose keys are unique keeps them unique: the index is never violated. */
  lemma {:induction false} InsertValidKeepsUnique(store: seq<Contact>, docs: seq<Contact>)
    ensures UniqueKeys(store) ==> UniqueKeys(InsertValid(store, docs).contacts)
    decreases |docs|
  {
    if docs != [] && UniqueKeys(store) {
      var c := docs[0];
      if ContactValid(c) && ContactKey(c) !in Keys(store) {
        var store' := store + [c];
        forall i, j | 0 <= i < j < |store'|
          ensures ContactKey(store'[i]) != ContactKey(store'[j])
        {
          if j == |store| {
            assert ContactKey(store[i]) in Keys(store);
          }
        }
        InsertValidKeepsUnique(store', docs[1..]);
      } else {
        InsertValidKeepsUnique(store, docs[1..]);
      }
    }
  }

  /**
   Nothing valid is lost: afterwards the collection holds every key it
   held before and the key of every document that passes the schema,
   whether inserted now or already present.
   */
  lemma {:induction false} InsertValidCovers(store: seq<Contact>, docs: seq<Contact>)
    ensures var r := InsertValid(store, docs);
            && Keys(store) <= Keys(r.contacts)
            && (forall i :: 0 <= i < |docs| && ContactValid(docs[i]) ==> ContactKey(docs[i]) in Keys(r.contacts))
    decreases |docs|
  {
    if docs != [] {
      var c := docs[0];
      var store' := if ContactValid(c) && ContactKey(c) !in Keys(store) then store + [c] else store;
      KeysSnoc(store, c);
      assert Keys(store) <= Keys(store') && (ContactValid(c) ==> ContactKey(c) in Keys(store'));
      InsertValidCovers(store', docs[1..]);
      assert InsertValid(store, docs).contacts == InsertValid(store', docs[1..]).contacts;
      forall i | 1 <= i < |docs|
        ensures docs[i] == docs[1..][i - 1]
      {
      }
    }
  }

  /** The same, for the built contacts as `insertMany` receives them: every one that passes the schema once trimmed is stored. */
  lemma InsertUnorderedCovers(store: seq<Contact>, batch: seq<Contact>)
    ensures var r := InsertUnordered(store, batch);
            && Keys(store) <= Keys(r.contacts)
            && (forall i :: 0 <= i < |batch| && ContactValid(CastContact(batch[i]))
                  ==> ContactKey(CastContact(batch[i])) in Keys(r.contacts))
  {
    InsertValidCovers(store, CastAll(batch));
  }

  /** The appended documents are documents of the batch that pass the schema, in batch order. */
  lemma {:induction false} InsertValidOnlyValid(store: seq<Contact>, docs: seq<Contact>)
    ensures var r := InsertValid(store, docs);
            && |store| <= |r.contacts|
            && IsSubsequence(r.contacts[|store|..], docs)
            && forall k :: |store| <= k < |r.contacts| ==> ContactValid(r.contacts[k])
    decreases |docs|
  {
    InsertValidAppends(store, docs);
    if docs != [] {
      var c := docs[0];
      var taken := ContactValid(c) && ContactKey(c) !in Keys(store);
      var store' := if taken then store + [c] else store;
      InsertValidOnlyValid(store', docs[1..]);
      InsertValidAppends(store', docs[1..]);
      var r := InsertValid(store', docs[1..]);
      assert InsertValid(store, docs).contacts == r.contacts;
      assert docs == [c] + docs[1..];
      if taken {
        var tail := r.contacts[|store|..];
        assert r.contacts[..|store'|] == store';
        assert tail[0] == c;
        assert tail[1..] == r.contacts[|store'|..];
      } else {
        SubsequenceOfTail(r.contacts[|store|..], c, docs[1..]);
      }
    }
  }

  /**
   `importContacts`: no upload is refused first, then a missing company or
   segment id, before any row is read; otherwise the rows are mapped and
   inserted.
   */
  function ImportContacts(store: seq<Contact>, upload: Option<seq<Row>>, companyId: string, segmentId: string)
    : (r: Result<ImportReport, ImportError>)
    ensures upload.None? ==> r == Failure(NoFileUploaded)
    ensures upload.Some? && (companyId == "" || segmentId == "") ==> r == Failure(MissingIds)
    ensures r.Success? <==> upload.Some? && companyId != "" && segmentId != ""
    ensures r.Success? ==> r.value.inserted <= RowsWithPhone(upload.value)
    ensures r.Success? ==> store <= r.value.contacts && |r.value.contacts| == |store| + r.value.inserted
    ensures r.Success? && UniqueKeys(store) ==> UniqueKeys(r.value.contacts)
    ensures r.Success? ==>
              var built := BuildContacts(upload.value, companyId, segmentId);
              && Keys(store) <= Keys(r.value.contacts)
              && (forall i :: 0 <= i < |built| && ContactValid(CastContact(built[i]))
                    ==> ContactKey(CastContact(built[i])) in Keys(r.value.contacts))
    ensures r.Success? ==>
              var built := BuildContacts(upload.value, companyId, segmentId);
              && |store| <= |r.value.contacts|
              && IsSubsequence(r.value.contacts[|store|..], CastAll(built))
              && (forall k :: |store| <= k < |r.value.contacts| ==> ContactValid(r.value.contacts[k]))
  {
    match upload
    case None => Failure(NoFileUploaded)
    case Some(rows) =>
      if companyId == "" || segmentId == "" then Failure(MissingIds)
      else
        var built := BuildContacts(rows, companyId, segmentId);
        BuildContactsCount(rows, companyId, segmentId);
        InsertValidAppends(store, CastAll(built));
        InsertValidKeepsUnique(store, CastAll(built));
        InsertUnorderedCovers(store, built);
        InsertValidOnlyValid(store, CastAll(built));
        Success(InsertUnordered(store, built))
  }

  /**
   A row with a phone but no name is built with the name '' and then
   refused by the schema's required `name`: it is never imported.
   */
  lemma NamelessRowNotImported(store: seq<Contact>, row: Row, companyId: string, segmentId: string)
    requires row.phone != "" && row.name == ""
    ensures InsertUnordered(store, BuildContacts([row], companyId, segmentId)).contacts == store
  {
    BuildContactsOneRow(row, companyId, segmentId);
    var docs := CastAll(BuildContacts([row], companyId, segmentId));
    assert !ContactValid(docs[0]);
    assert InsertValid(store, docs) == InsertValid(store, docs[1..]);
    assert docs[1..] == [];
  }
}
