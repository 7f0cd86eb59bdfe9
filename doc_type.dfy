/** The document code tables: each `DocType` pairs a display name with a
    numeric code, and the three tables number their members differently. */
module DocType {

  datatype DocType = DocType(name: string, value: nat)

  /** `RequiredDocumentData`: the documents an image caption can name. */
  const RequiredInvoice := DocType("Invoice", 0)
  const RequiredSerialNo := DocType("Sr. #", 1)
  const RequiredDevicePhoto := DocType("Device Photo", 2)
  const RequiredDocumentData: seq<DocType> := [RequiredInvoice, RequiredSerialNo, RequiredDevicePhoto]

  /** `DocumentTypeData`, in declaration order. */
  const Invoice := DocType("Invoice", 0)
  const SerialNo := DocType("Sr. #", 1)
  const DeviceVideo := DocType("Device Video", 2)
  const DevicePhoto := DocType("Device Photo", 3)
  const DefectivePickup := DocType("Defective Pickup", 6)
  const Jobsheet := DocType("Jobsheet", 7)
  const Other := DocType("Other", 4)
  const TechnicianSelfie := DocType("Selfie of Technician", 5)
  const DocumentTypeData: seq<DocType> :=
    [Invoice, SerialNo, DeviceVideo, DevicePhoto, DefectivePickup, Jobsheet, Other, TechnicianSelfie]

  /** `CorpDocumentTypeData`, in declaration order. */
  const CorpSerialNo := DocType("Sr. #", 0)
  const CorpDevicePhoto := DocType("Device Photo", 1)
  const CorpJobsheet := DocType("Jobsheet", 7)
  const CorpInnerSerialNo := DocType("Inner Sr. #", 0)
  const CorpInnerDevicePhoto := DocType("Inner Device Photo", 1)
  const CorpOuterSerialNo := DocType("Outer Sr. #", 2)
  const CorpOuterDevicePhoto := DocType("Outer Device Photo", 3)
  const CorpDocumentTypeData: seq<DocType> :=
    [CorpSerialNo, CorpDevicePhoto, CorpJobsheet, CorpInnerSerialNo, CorpInnerDevicePhoto,
     CorpOuterSerialNo, CorpOuterDevicePhoto]

  predicate DistinctCodes(table: seq<DocType>) {
    forall i, j :: 0 <= i < j < |table| ==> table[i].value != table[j].value
  }

  function Codes(table: seq<DocType>): (r: set<nat>)
    ensures forall i :: 0 <= i < |table| ==> table[i].value in r
    ensures forall n :: n in r ==> exists i :: 0 <= i < |table| && table[i].value == n
  {
    set i | 0 <= i < |table| :: table[i].value
  }

  /** Invoice 0, serial number 1, device photo 2, all distinct. */
  lemma RequiredCodes()
    ensures RequiredInvoice.value == 0 && RequiredSerialNo.value == 1 && RequiredDevicePhoto.value == 2
    ensures DistinctCodes(RequiredDocumentData)
  {
  }

  /** The general table numbers its eight members exactly 0 to 7, so each has
      a slot in an eight-bucket count array. */
  lemma DocumentTypeCodes()
    ensures DistinctCodes(DocumentTypeData)
    ensures Codes(DocumentTypeData) == {0, 1, 2, 3, 4, 5, 6, 7}
  {
    forall n: nat | n < 8 ensures n in Codes(DocumentTypeData) {
      var i := [0, 1, 2, 3, 6, 7, 4, 5][n];
      assert DocumentTypeData[i].value == n;
    }
  }

  /** The corporate table reuses codes: the inner serial number and inner
      device photo share the codes of the serial number and device photo. */
  lemma CorpAliases()
    ensures CorpInnerSerialNo.value == CorpSerialNo.value == 0
    ensures CorpInnerDevicePhoto.value == CorpDevicePhoto.value == 1
    ensures !DistinctCodes(CorpDocumentTypeData)
  {
    assert CorpDocumentTypeData[0].value == CorpDocumentTypeData[3].value;
  }

  /** Codes do not carry over between tables: the device photo is 2 in the
      required table and 3 in the general one, where 2 is the device video. */
  lemma CodesNotInterchangeable()
    ensures RequiredDevicePhoto.value == 2 && DevicePhoto.value == 3 && DeviceVideo.value == 2
    ensures RequiredDevicePhoto.name == DevicePhoto.name && RequiredDevicePhoto.value != DevicePhoto.value
    ensures CorpDevicePhoto.value == RequiredSerialNo.value
  {
  }
}
