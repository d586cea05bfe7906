/**
  The cloud-credentials form: the schema its three fields are checked
  against, the regions the user may pick, and the values the form starts
  with. A field shows the first rule of its chain that it breaks.
*/
module CredentialsForm {
  import opened Common

  const AccessKeyIdRequired := "AWS Access Key ID is required"
  const AccessKeyIdTooShort := "AWS Access Key ID must be at least 16 characters"
  const AccessKeyIdTooLong := "AWS Access Key ID must be at most 128 characters"
  const SecretRequired := "AWS Secret Access Key is required"
  const SecretTooShort := "AWS Secret Access Key must be at least 30 characters"
  const RegionRequired := "AWS Region is required"
  const DefaultRegion := "us-east-1"

  datatype Values = Values(accessKeyId: string, secretAccessKey: string, region: string)

  /** The message shown under each field, None when the field is accepted. */
  datatype FormErrors = FormErrors(accessKeyId: Option<string>, secretAccessKey: Option<string>, region: Option<string>)

  /** The access key id: required, at least 16 and at most 128 characters. */
  function AccessKeyIdError(v: string): (e: Option<string>)
    ensures e.None? <==> 16 <= |v| <= 128
    ensures e == Some(AccessKeyIdRequired) <==> v == ""
    ensures e == Some(AccessKeyIdTooShort) <==> 0 < |v| < 16
    ensures e == Some(AccessKeyIdTooLong) <==> |v| > 128
  {
    if v == "" then Some(AccessKeyIdRequired)
    else if |v| < 16 then Some(AccessKeyIdTooShort)
    else if |v| > 128 then Some(AccessKeyIdTooLong)
    else None
  }

  /** The secret key: required and at least 30 characters, with no upper bound. */
  function SecretAccessKeyError(v: string): (e: Option<string>)
    ensures e.None? <==> |v| >= 30
    ensures e == Some(SecretRequired) <==> v == ""
    ensures e == Some(SecretTooShort) <==> 0 < |v| < 30
  {
    if v == "" then Some(SecretRequired)
    else if |v| < 30 then Some(SecretTooShort)
    else None
  }

  function RegionError(v: string): (e: Option<string>)
    ensures e.None? <==> v != ""
    ensures e.Some? ==> e.value == RegionRequired
  {
    if v == "" then Some(RegionRequired) else None
  }

  function Validate(values: Values): (errors: FormErrors)
    ensures errors.accessKeyId.None? <==> 16 <= |values.accessKeyId| <= 128
    ensures errors.secretAccessKey.None? <==> |values.secretAccessKey| >= 30
    ensures errors.region.None? <==> values.region != ""
  {
    FormErrors(AccessKeyIdError(values.accessKeyId), SecretAccessKeyError(values.secretAccessKey), RegionError(values.region))
  }

  /** The form can be submitted when no field shows a message. */
  predicate Submittable(values: Values) {
    var e := Validate(values);
    e.accessKeyId.None? && e.secretAccessKey.None? && e.region.None?
  }

  /** The regions the form offers, in display order. */
  function Regions(): (r: seq<string>)
    ensures |r| == 17
    ensures DefaultRegion in r
    ensures forall i, j :: 0 <= i < j < |r| ==> r[i] != r[j]
    ensures forall i :: 0 <= i < |r| ==> r[i] != ""
  {
    [ "us-east-1", "us-east-2", "us-west-1", "us-west-2", "ca-central-1",
      "eu-west-1", "eu-west-2", "eu-west-3", "eu-central-1", "eu-north-1",
      "ap-northeast-1", "ap-northeast-2", "ap-northeast-3",
      "ap-southeast-1", "ap-southeast-2", "ap-south-1", "sa-east-1" ]
  }

  /** The starting values: empty keys, and the stored region unless it is absent or empty. */
  function InitialValues(storedRegion: Option<string>): (v: Values)
    ensures v.accessKeyId == "" && v.secretAccessKey == ""
    ensures storedRegion.Some? && storedRegion.value != "" ==> v.region == storedRegion.value
    ensures storedRegion.None? || storedRegion.value == "" ==> v.region == DefaultRegion
  {
    var region := match storedRegion case Some(r) => if r == "" then DefaultRegion else r case None => DefaultRegion;
    Values("", "", region)
  }

  /**
    A form is submittable exactly when its keys are within their length
    bounds and a region is chosen; the fresh form is never submittable, but
    its region never shows a message and is one of the offered regions
    unless a stored region overrides it.
  */
  lemma SubmittableIff(values: Values)
    ensures Submittable(values) <==>
      16 <= |values.accessKeyId| <= 128 && |values.secretAccessKey| >= 30 && values.region != ""
  {
  }

  lemma FreshForm(storedRegion: Option<string>)
    ensures !Submittable(InitialValues(storedRegion))
    ensures Validate(InitialValues(storedRegion)).accessKeyId == Some(AccessKeyIdRequired)
    ensures Validate(InitialValues(storedRegion)).secretAccessKey == Some(SecretRequired)
    ensures Validate(InitialValues(storedRegion)).region.None?
    ensures storedRegion.None? ==> InitialValues(storedRegion).region in Regions()
  {
  }

  /** Filling both keys within bounds makes any fresh form submittable. */
  lemma FilledFormSubmittable(storedRegion: Option<string>, accessKeyId: string, secretAccessKey: string)
    requires 16 <= |accessKeyId| <= 128 && |secretAccessKey| >= 30
    ensures Submittable(InitialValues(storedRegion).(accessKeyId := accessKeyId, secretAccessKey := secretAccessKey))
  {
  }
}
