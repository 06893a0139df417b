/** Health conditions, as the health scope's two halves share them. */
module Health {
  import opened Kube

  datatype HealthStatus = Healthy | Unhealthy | Unknown | OtherStatus(text: string)

  datatype HealthCondition = HealthCondition(
    target: TypedReference,
    status: HealthStatus,
    diagnosis: string,
    workloadStatus: string)
}
