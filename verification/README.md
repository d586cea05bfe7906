# certiRoute core in Dafny

certiRoute manages DNS subdomains and TLS certificates for one host. Its
backend creates and deletes `A` records in a cloud DNS provider's hosted
zones, keeps a list of subdomains and a list of (simulated) certificates,
installs certificates on a web server, and probes the host's ports to find
which web servers run there. Its browser client keeps the subdomains, the
certificates, the credentials status and the probe results in four store
slices that react to the lifecycle of each request.

The model is functional. The provider, the shell, the file system and the
clock are inputs, and each backend operation maps its stored list to a
response and a new list. Each store slice is a reducer `State × Action →
State`, and `Run` folds a reducer over a history of actions.

| module | file | models |
|---|---|---|
| `Common` | common.dfy | `Option`, `Result`, `Outcome`; `find`, `findIndex`, `filter`, `splice` on sequences |
| `Text` | text.dfy | string operations with JavaScript semantics: `trim`, `split('\n')`, `split(/\s+/)`, `indexOf`, `includes`, `replace` of the first occurrence, `path.dirname`, ASCII `toLowerCase`, decimal rendering |
| `SubdomainService` | subdomain_service.dfy | hosted zones, subdomain create, lookup, certificate flag and delete |
| `SslService` | ssl_service.dfy | certificate generation, installation, lookup, listing and deletion |
| `WebserverService` | webserver_service.dfy | `lsof` parsing, server identification, version extraction, port scan, detection pass and stored detections |
| `SubdomainRoutes` | subdomain_routes.dfy | the HTTP handlers for subdomains: validation, status codes and bodies |
| `CredentialsForm` | credentials_form.dfy | the credentials form's validation schema, region list and initial values |
| `AsyncThunk` | async_thunk.dfy | the message a rejected request leaves in a slice |
| `SslSlice`, `SubdomainSlice`, `AwsSlice`, `WebserverSlice` | ssl_slice.dfy, subdomain_slice.dfy, aws_slice.dfy, webserver_slice.dfy | the four client store slices |

## Model

| member | source | states |
|---|---|---|
| SubdomainService.ListHostedZones | certiRoute/backend/src/services/subdomain.service.js:34-49 | Missing credentials fail with "AWS credentials not found". A provider error is passed on. Otherwise every zone is listed in order with its record count, its id without the `/hostedzone/` prefix and its name without the trailing dot. |
| SubdomainService.ZoneApex | certiRoute/backend/src/services/subdomain.service.js:68 | Exactly one trailing dot is removed; a name without one is kept. |
| SubdomainService.ApexOfQualifiedName | certiRoute/backend/src/services/subdomain.service.js:45 | Dropping the dot of a fully qualified zone name gives back the apex. |
| SubdomainService.ZoneIdOfProviderId | certiRoute/backend/src/services/subdomain.service.js:44 | Stripping the prefix from `/hostedzone/<id>` yields `<id>`. |
| SubdomainService.CreateSubdomain | certiRoute/backend/src/services/subdomain.service.js:54-121 | The steps run in order and the first failure ends the call: credentials, then public address, then zone name, then the record change. Success happens exactly when every step passes. The one UPSERT names `<label>.<apex>` with the public address, TTL 300 and type A. Success appends exactly one record, with id `<label>-<now>` and `sslInstalled` false, and returns its full name and address. Any failure leaves the list unchanged. |
| SubdomainService.GetSubdomainById | certiRoute/backend/src/services/subdomain.service.js:138-146 | The result is the first record with the id. It is absent exactly when no record has that id. |
| SubdomainService.UpdateSubdomainSslStatus | certiRoute/backend/src/services/subdomain.service.js:151-170 | An unknown id fails with "Subdomain not found" and changes nothing. Otherwise only the first matching record changes: it gets the new flag and a fresh `updatedAt`, and it is returned. |
| SubdomainService.DeleteSubdomain | certiRoute/backend/src/services/subdomain.service.js:175-228 | Missing credentials fail first, then an unknown id, and neither sends a change. Otherwise one DELETE carries the stored name, address and zone. The record is removed at its index exactly when that DELETE succeeds. |
| SubdomainService.DeleteRemovesOnlyTarget | certiRoute/backend/src/services/subdomain.service.js:184-220 | With unique ids, a successful delete leaves no record with the id, keeps every other record, and keeps ids unique. |
| SubdomainService.CreateThenDelete | certiRoute/backend/src/services/subdomain.service.js:74-113 | Deleting a freshly created subdomain sends a DELETE with the same zone, name, address and TTL as the UPSERT. If that DELETE succeeds, the list is restored. |
| SubdomainService.UpdateThenGet | certiRoute/backend/src/services/subdomain.service.js:151-170 | After an update, a lookup by id sees the new flag and timestamp, and the list's ids are unchanged. |
| SslService.GenerateCertificate | certiRoute/backend/src/services/ssl.service.js:26-116 | An unknown subdomain fails with "Subdomain not found". Success happens exactly when the subdomain exists and both the account key and the CSR are made; the CSR names the subdomain's full name. Success appends a simulated certificate valid for 90 days, with its three files in the domain's directory. It flags that subdomain as having a certificate and stamps its `updatedAt`, and the subdomain list is exactly what the SSL-status update makes of it, so no other record changes. A failure changes neither list. |
| SslService.InstallSteps | certiRoute/backend/src/services/ssl.service.js:130-160 | Server types are matched in this order: exactly "nginx" (5 steps), exactly "apache" (6 steps), any type containing "node", then anything else. Only nginx and apache start with a backup step. Every type links the certificate files. |
| SslService.InstallCertificate | certiRoute/backend/src/services/ssl.service.js:121-182 | An unknown id fails with "Certificate not found" and changes nothing. Otherwise only the first record with the id becomes installed, with the server type and time. The call returns success, the message naming domain and server, and that type's steps. |
| SslService.GetCertificateById | certiRoute/backend/src/services/ssl.service.js:199-207 | The result is the first certificate with the id. It is absent exactly when none has it. |
| SslService.GetCertificatesBySubdomain | certiRoute/backend/src/services/ssl.service.js:212-220 | The result holds exactly the certificates of the subdomain. |
| SslService.BySubdomainAppend | certiRoute/backend/src/services/ssl.service.js:212-220 | The listing keeps the store's order and multiplicity: an empty store lists nothing, a single certificate is listed exactly when it belongs to the subdomain, and the listing of two concatenated lists is the concatenation of their listings. |
| SslService.DeleteCertificate | certiRoute/backend/src/services/ssl.service.js:225-252 | An unknown id fails with "Certificate not found". Otherwise the directory of the certificate file is removed, and so is the record at its index. |
| SslService.GeneratedListedLast | certiRoute/backend/src/services/ssl.service.js:81-83 | A generated certificate shows up last in its subdomain's listing, after all the earlier ones. |
| SslService.GeneratedFilesInDomainDir | certiRoute/backend/src/services/ssl.service.js:34-70 | All three files of a generated certificate sit in the domain's directory. When its id is fresh, deleting that certificate afterwards succeeds, removes that directory and gives back the earlier certificate list. |
| SslService.SameSubdomainSharesFiles | certiRoute/backend/src/services/ssl.service.js:61-70 | Two certificates for one subdomain share all three file paths. Their ids differ when they were made at different times. |
| SslService.InstallIdempotent | certiRoute/backend/src/services/ssl.service.js:169-173 | Installing twice with the same arguments gives the same result as installing once. |
| SslService.InstallThenGet | certiRoute/backend/src/services/ssl.service.js:169-175 | Installation keeps the ids. A lookup afterwards sees the certificate installed on the server type. |
| SslService.DeleteRemovesOnlyTarget | certiRoute/backend/src/services/ssl.service.js:228-244 | With unique ids, a successful delete leaves no certificate with the id and keeps all the others. |
| WebserverService.ProcessFromLsof | certiRoute/backend/src/services/webserver.service.js:22-46 | A process is reported exactly when the trimmed output has a second line. Its name and pid are whitespace-free columns. |
| WebserverService.ProcessFromLsofRow | certiRoute/backend/src/services/webserver.service.js:24-41 | For a header line followed by `<name><blanks><pid> …`, with any run of blanks between the columns as `lsof` pads them, and any trailing white space such as the final newline, the name and pid of the first data row come back. |
| Text.SplitWsRunStep | certiRoute/backend/src/services/webserver.service.js:36 | Splitting on `/\s+/` cuts a word off at any run of white space, however long, and the rest splits on its own. |
| WebserverService.FamilyOf | certiRoute/backend/src/services/webserver.service.js:59-86 | A server family is picked by the lower-cased process name: "nginx", "apache2" or "httpd", or "node". |
| WebserverService.NodeFramework | certiRoute/backend/src/services/webserver.service.js:90-102 | The first framework named in the command line wins, in the order express, koa, hapi, next. Otherwise the result is node.js. |
| WebserverService.FirstVersionFrom | certiRoute/backend/src/services/webserver.service.js:66-98 | A match is always a `digits.digits.digits` version. Nothing is found only when no occurrence of the prefix at or after the start position is followed by a version. |
| WebserverService.VersionOrUnknown | certiRoute/backend/src/services/webserver.service.js:66-98 | The result is either "unknown" or a `digits.digits.digits` version. It is "unknown" exactly when the probe gave no output or no occurrence of the prefix is followed by a version. |
| WebserverService.VersionReported | certiRoute/backend/src/services/webserver.service.js:66-98 | When an occurrence of the prefix is followed by maximal digit runs `major.minor.patch`, that version is reported, provided no earlier occurrence is followed by a version. Earlier occurrences without a version do not matter. |
| WebserverService.FirstVersionSkips | certiRoute/backend/src/services/webserver.service.js:66-98 | Positions where the prefix does not occur, or occurs without a version after it, can be skipped without changing the match. |
| WebserverService.FirstVersionLeftmost | certiRoute/backend/src/services/webserver.service.js:66-98 | The version found is the one after the leftmost occurrence of the prefix that is followed by a version. |
| WebserverService.FirstVersionNone | certiRoute/backend/src/services/webserver.service.js:66-98 | Nothing is found when no occurrence of the prefix is followed by a version. |
| WebserverService.IdentifyWebServer | certiRoute/backend/src/services/webserver.service.js:51-116 | A server is reported exactly when the port has an owner. For each family, the type and version come from that family's probe; anything else keeps its process name, with type and version both "unknown". |
| WebserverService.ScanPorts | certiRoute/backend/src/services/webserver.service.js:121-134 | When the scanner fails, no port is open and all six common ports are closed. Otherwise the scanner's lists are used. |
| WebserverService.DetectPort | certiRoute/backend/src/services/webserver.service.js:166-190 | A port is detected exactly when it has an owner. It is secure exactly on 443 and 8443, and the HTTP probe uses that scheme. |
| WebserverService.Detect | certiRoute/backend/src/services/webserver.service.js:166-190 | Every detection is for an open port and is that port's own detection. |
| WebserverService.DetectedPorts | certiRoute/backend/src/services/webserver.service.js:166-190 | The detected ports are exactly the open ports that have an owner, in scan order. |
| WebserverService.DetectWebServers | certiRoute/backend/src/services/webserver.service.js:162-193 | The detections are exactly the open ports that have an owner, in scan order, and each is that port's own detection. The stored snapshot holds the returned detections and the scan time. A failed scan detects nothing. |
| WebserverService.GetWebServerDetections | certiRoute/backend/src/services/webserver.service.js:198-208 | With no stored snapshot, the result has no scan time and no detections. Otherwise the stored one is returned. |
| WebserverService.DetectionIsStable | certiRoute/backend/src/services/webserver.service.js:166-190 | Two passes over the same probe answers differ only in their detection times: the model is deterministic in its inputs. |
| SubdomainRoutes.LabelErrors | certiRoute/backend/src/routes/subdomain.routes.js:51-54 | There are no errors exactly when the value is a DNS label. An empty value gets both the "required" and the syntax error. |
| SubdomainRoutes.ValidateCreate | certiRoute/backend/src/routes/subdomain.routes.js:51-60 | A request passes exactly when the subdomain is a label and the zone id is non-empty; a missing field counts as empty. |
| SubdomainRoutes.GetIp | certiRoute/backend/src/routes/subdomain.routes.js:13-21 | The status is 200 with the address exactly when it was found, and otherwise 500. |
| SubdomainRoutes.ListZones | certiRoute/backend/src/routes/subdomain.routes.js:28-42 | Missing credentials give 400 and a provider error gives 500. Otherwise the status is 200 with the listed zones. |
| SubdomainRoutes.PostSubdomain | certiRoute/backend/src/routes/subdomain.routes.js:48-78 | Invalid input gives 400 with the errors. Missing credentials give 400 "not configured". The status is 201 exactly when the service creates the subdomain, and 500 exactly when it fails after validation. Only a 201 changes the list. |
| SubdomainRoutes.ListSubdomains | certiRoute/backend/src/routes/subdomain.routes.js:85-93 | The response is 200 with the whole list. |
| SubdomainRoutes.GetSubdomain | certiRoute/backend/src/routes/subdomain.routes.js:100-114 | The status is 404 exactly when no record has the id. Otherwise it is 200 with that record. |
| SubdomainRoutes.DeleteSubdomainRoute | certiRoute/backend/src/routes/subdomain.routes.js:121-142 | Missing credentials give 400 "not configured". The status is 200 exactly when the service deletes the record, and otherwise 400 with the service's error. |
| SubdomainRoutes.CreatedNameStartsWithLabel | certiRoute/backend/src/routes/subdomain.routes.js:51-76 | The full name in a 201 response splits on dots with the requested label first. |
| SubdomainRoutes.CreateThenDeleteRoutes | certiRoute/backend/src/routes/subdomain.routes.js:71-137 | Deleting a subdomain created through the API answers 200 and restores the list exactly when the provider accepts the DELETE. Otherwise the answer is 400 with the provider's error, and the list keeps the created record. |
| CredentialsForm.AccessKeyIdError | certiRoute/frontend/src/pages/AwsCredentials.js:41-44 | The value is accepted exactly when it has 16 to 128 characters. The shown error is "required" for an empty value, then "too short", then "too long". |
| CredentialsForm.SecretAccessKeyError | certiRoute/frontend/src/pages/AwsCredentials.js:45-47 | The value is accepted exactly when it has at least 30 characters. The shown error is "required" for an empty value, otherwise "too short". |
| CredentialsForm.RegionError | certiRoute/frontend/src/pages/AwsCredentials.js:48-49 | The value is accepted exactly when it is non-empty. |
| CredentialsForm.Validate | certiRoute/frontend/src/pages/AwsCredentials.js:40-50 | Each field is accepted exactly under its own rule. |
| CredentialsForm.Regions | certiRoute/frontend/src/pages/AwsCredentials.js:53-71 | There are 17 distinct, non-empty regions, including us-east-1. |
| CredentialsForm.InitialValues | certiRoute/frontend/src/pages/AwsCredentials.js:166-168 | Both keys start empty. The region is the stored one when that is non-empty, and otherwise us-east-1. |
| AsyncThunk.RejectionMessage | certiRoute/frontend/src/store/slices/ssl.js:116-119 | A rejection shows the payload's message when it is non-empty, otherwise the request's default. With a non-empty default, the message is never empty. |
| SslSlice.OnInstalled | certiRoute/frontend/src/store/slices/ssl.js:127-145 | Only the first listed certificate with the id, and the displayed one when its id matches, become installed on the server type. The result is stored and nothing else changes. |
| SslSlice.OnDeleted | certiRoute/frontend/src/store/slices/ssl.js:198-209 | Every certificate with the id leaves both lists and every other one stays. The displayed one is cleared exactly when it has the id. |
| SslSlice.Reduce | certiRoute/frontend/src/store/slices/ssl.js:90-214 | For each action, the fields it may change and what they become, and that every other field is unchanged. |
| SslSlice.HistoryKeepsErrorReadable | certiRoute/frontend/src/store/slices/ssl.js:104-214 | After any history, the error is absent or non-empty. A final start leaves the slice loading with no error, and a final settlement leaves it not loading. |
| SslSlice.InstallIdempotent | certiRoute/frontend/src/store/slices/ssl.js:127-145 | A repeated fulfilled installation changes nothing more. |
| SslSlice.DeleteIdempotent | certiRoute/frontend/src/store/slices/ssl.js:198-209 | A repeated fulfilled delete changes nothing more. |
| SslSlice.GenerateThenDelete | certiRoute/frontend/src/store/slices/ssl.js:111-209 | Deleting a just-generated certificate with a fresh id restores the list and clears the displayed certificate. |
| SubdomainSlice.Reduce | certiRoute/frontend/src/store/slices/subdomain.js:90-191 | For each action, the fields it may change and what they become. A fulfilled create only stops loading. A delete drops exactly the records with the id, and clears the displayed one exactly when it has the id; otherwise the displayed one is kept unchanged. |
| SubdomainSlice.HistoryKeepsErrorReadable | certiRoute/frontend/src/store/slices/subdomain.js:101-191 | After any history, the error is absent or non-empty. A final start leaves the slice loading, and a final settlement leaves it not loading. |
| SubdomainSlice.DeleteIdempotent | certiRoute/frontend/src/store/slices/subdomain.js:177-185 | A repeated fulfilled delete changes nothing more. |
| SubdomainSlice.WithoutUniqueId | certiRoute/frontend/src/store/slices/subdomain.js:177-185 | With unique ids, filtering out the id of the i-th record removes exactly that record. |
| SubdomainSlice.ClientDeleteMatchesServer | certiRoute/frontend/src/store/slices/subdomain.js:177-185 | With unique ids, the list the client keeps after a delete is the list the server keeps. |
| AwsSlice.Reduce | certiRoute/frontend/src/store/slices/aws.js:65-134 | For each action, the fields it may change and what they become. A validation start forgets the last result, and a rejected validation is recorded as invalid. |
| AwsSlice.HistoryKeepsErrorReadable | certiRoute/frontend/src/store/slices/aws.js:73-134 | After any history, the error is absent or non-empty. A final start leaves the slice loading, and a final settlement leaves it not loading. |
| AwsSlice.ConfiguredFollowsLastDecision | certiRoute/frontend/src/store/slices/aws.js:80-117 | The configured flag is set by the last save, removal or status check in the history, and otherwise keeps its initial value. |
| AwsSlice.RunAppend | certiRoute/frontend/src/store/slices/aws.js:73-134 | Running a history and then one more action gives the same state as running the extended history. |
| WebserverSlice.Initial | certiRoute/frontend/src/store/slices/webserver.js:46-55 | The slice starts with no scan, no detections, empty port lists, not loading and no error. |
| WebserverSlice.Reduce | certiRoute/frontend/src/store/slices/webserver.js:56-108 | A scan or a read replaces the scan time and the detections. A port scan replaces only the port lists. Starts, rejections and clearing touch only loading and the error. |
| WebserverSlice.HistoryKeepsErrorReadable | certiRoute/frontend/src/store/slices/webserver.js:61-108 | After any history, the error is absent or non-empty. A final start leaves the slice loading, and a final settlement leaves it not loading. |
| WebserverSlice.DetectionsFromLastSnapshot | certiRoute/frontend/src/store/slices/webserver.js:68-91 | The shown detections and scan time come from the last scan or read in the history, whatever happened before it. |
| WebserverSlice.NoReplaceKeepsDetections | certiRoute/frontend/src/store/slices/webserver.js:94-106 | A history with no scan or read leaves the detections and the scan time unchanged. |

## Left out

- Network, SDK, shell and file-system calls are inputs, not operations: the public-address lookup, the DNS provider (`Provider`, `Outcome` of a change), `lsof`/`nginx -v`/`apachectl -v`/`node -v`/`ps`, the port scanner, the HTTP probe, the ACME client and the JSON files. A failure of a JSON read or write is not modelled.
- Concurrency between requests, and the half-second delay after each installation step, are left out.
- Timestamps are integers (milliseconds); their ISO rendering is not modelled. A detection pass uses one `now` for every detection and for the scan time, where the program reads the clock separately each time. Likewise CreateSubdomain uses one `now` for the id (read with `Date.now`) and for `createdAt` (read with `new Date`), and GenerateCertificate uses one `now` for the certificate id, `createdAt`, `expiresAt` and the subdomain's `updatedAt`, which the program reads four times.
- Ids built from the clock (`<label>-<ms>`, `cert-<ms>`) are not claimed unique. The lemmas that need unique ids take that as a precondition.
- The certificate directory is modelled as the relative path `data/certs`; the absolute directory of the running program is not.
- Text lengths count code points, where JavaScript counts UTF-16 units; they differ only outside the Basic Multilingual Plane. `toLowerCase` is modelled on ASCII letters only, which does not change any comparison with the lower-case server names.
- A rejection payload whose `error` field is not a string is not modelled; the payload's message is an optional string.
- The request thunks' own fallback messages (for example "Failed to save credentials") are not modelled separately: the reducers' defaults are used when the payload has no message.
- The `/ip`, `/zones` and listing handlers' logging, and the `/scan` route's own `lastScan` timestamp, are left out.
- The routes for credentials, certificates and web servers, the credential storage service, the server entry point and the pages other than the credentials form are not part of this model.
- WebserverService.IdentifyWebServer: the version probes' command output is an input, so the model does not state which command line each probe runs.
- WebserverService.ProcessFromLsof: it states when a process is reported and that its fields are single columns; which columns they are is stated by ProcessFromLsofRow for outputs of that shape, padded columns and trailing white space included.
